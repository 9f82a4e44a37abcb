/** The canonical order of member names, and sorting every object of a value by it. */
module JsonOrder {
  import opened Json

  /** Before in the order of code points; for ASCII names also that of UTF-16 units. */
  predicate Less(a: string, b: string) {
    b != "" && (a == "" || a[0] < b[0] || (a[0] == b[0] && Less(a[1..], b[1..])))
  }

  /** Each name before the next. */
  predicate Ordered(ms: seq<Member>) {
    |ms| < 2 || (Less(ms[0].name, ms[1].name) && Ordered(ms[1..]))
  }

  function Insert(m: Member, sorted: seq<Member>): (r: seq<Member>)
    ensures multiset(r) == multiset(sorted) + multiset{m}
  {
    if sorted == [] then [m]
    else if Less(sorted[0].name, m.name) then
      assert sorted == [sorted[0]] + sorted[1..];
      [sorted[0]] + Insert(m, sorted[1..])
    else [m] + sorted
  }

  /** The value with the members of every object in order, at every depth. */
  function SortKeys(v: Value): Value
    decreases v
  {
    match v
    case List(items) => List(SortItems(items))
    case Object(members) => Object(SortMembers(members))
    case _ => v
  }

  function SortItems(items: seq<Value>): seq<Value>
    decreases items
  {
    if items == [] then [] else [SortKeys(items[0])] + SortItems(items[1..])
  }

  function SortMembers(members: seq<Member>): seq<Member>
    decreases members
  {
    if members == [] then []
    else Insert(SortMember(members[0]), SortMembers(members[1..]))
  }

  function SortMember(m: Member): Member
    decreases m
  {
    Member(m.name, SortKeys(m.value))
  }

  // ---------------------------------------------------------------- a strict total order

  lemma {:induction false} LessAsymmetric(a: string, b: string)
    requires Less(a, b)
    ensures !Less(b, a) && a != b
  {
    if a != "" && a[0] == b[0] {
      LessAsymmetric(a[1..], b[1..]);
    }
  }

  lemma {:induction false} LessTotal(a: string, b: string)
    requires a != b
    ensures Less(a, b) || Less(b, a)
  {
    if a != "" && b != "" && a[0] == b[0] {
      assert a == [a[0]] + a[1..] && b == [b[0]] + b[1..];
      LessTotal(a[1..], b[1..]);
    }
  }

  lemma {:induction false} LessTransitive(a: string, b: string, c: string)
    requires Less(a, b) && Less(b, c)
    ensures Less(a, c)
  {
    if a != "" && a[0] == b[0] && b[0] == c[0] {
      LessTransitive(a[1..], b[1..], c[1..]);
    }
  }

  /** The order decided at the first difference. */
  lemma {:induction false} LessAt(a: string, b: string, i: nat)
    requires i < |a| && i < |b| && a[..i] == b[..i] && a[i] < b[i]
    ensures Less(a, b)
  {
    if i > 0 {
      assert a[0] == a[..i][0] && b[0] == b[..i][0];
      assert a[1..][..i - 1] == a[..i][1..] && b[1..][..i - 1] == b[..i][1..];
      LessAt(a[1..], b[1..], i - 1);
    }
  }

  lemma {:induction false} OrderedIf(ms: seq<Member>)
    requires forall k :: 0 <= k < |ms| - 1 ==> Less(ms[k].name, ms[k + 1].name)
    ensures Ordered(ms)
  {
    if |ms| >= 2 {
      forall k | 0 <= k < |ms[1..]| - 1 ensures Less(ms[1..][k].name, ms[1..][k + 1].name) {
        assert Less(ms[k + 1].name, ms[k + 2].name);
      }
      OrderedIf(ms[1..]);
    }
  }

  predicate NamesOrdered(keys: seq<string>) {
    forall k :: 0 <= k < |keys| - 1 ==> Less(keys[k], keys[k + 1])
  }

  lemma OrderedByNames(ms: seq<Member>, keys: seq<string>)
    requires |ms| == |keys| && NamesOrdered(keys) && forall i :: 0 <= i < |ms| ==> ms[i].name == keys[i]
    ensures Ordered(ms)
  {
    hide Less, Ordered;
    OrderedIf(ms);
  }

  // ---------------------------------------------------------------- sorting

  predicate KeysSorted(v: Value) {
    match v
    case List(items) => forall i :: 0 <= i < |items| ==> KeysSorted(items[i])
    case Object(members) => Ordered(members) && forall i :: 0 <= i < |members| ==> KeysSorted(members[i].value)
    case _ => true
  }

  /** A value already in order at every depth stays as it is. */
  lemma {:induction false} SortOfSorted(v: Value)
    requires KeysSorted(v)
    ensures SortKeys(v) == v
    decreases v
  {
    match v
    case List(items) => SortOfItems(items);
    case Object(members) => SortOfMembers(members);
    case _ =>
  }

  lemma {:induction false} SortOfItems(items: seq<Value>)
    requires forall i :: 0 <= i < |items| ==> KeysSorted(items[i])
    ensures SortItems(items) == items
    decreases items
  {
    if items != [] {
      SortOfSorted(items[0]);
      SortOfItems(items[1..]);
      assert items == [items[0]] + items[1..];
    }
  }

  lemma {:induction false} SortOfMembers(members: seq<Member>)
    requires Ordered(members) && forall i :: 0 <= i < |members| ==> KeysSorted(members[i].value)
    ensures SortMembers(members) == members
    decreases members
  {
    if members != [] {
      var m := members[0];
      assert m.value < m;
      SortOfSorted(m.value);
      SortOfMembers(members[1..]);
      assert members == [m] + members[1..];
      if |members| > 1 {
        LessAsymmetric(m.name, members[1].name);
      }
    }
  }

  lemma {:induction false} HeadIsLeast(ms: seq<Member>, i: nat)
    requires Ordered(ms) && 0 < i < |ms|
    ensures Less(ms[0].name, ms[i].name)
  {
    if i > 1 {
      HeadIsLeast(ms[1..], i - 1);
      LessTransitive(ms[0].name, ms[1].name, ms[i].name);
    }
  }

  lemma {:induction false} InsertKeepsOrder(m: Member, sorted: seq<Member>)
    requires Ordered(sorted) && forall i :: 0 <= i < |sorted| ==> sorted[i].name != m.name
    ensures Ordered(Insert(m, sorted))
  {
    if sorted != [] {
      if Less(sorted[0].name, m.name) {
        InsertKeepsOrder(m, sorted[1..]);
        var rest := Insert(m, sorted[1..]);
        assert ([sorted[0]] + rest)[1..] == rest;
      } else {
        LessTotal(m.name, sorted[0].name);
        assert ([m] + sorted)[1..] == sorted;
      }
    }
  }

  predicate SameMembers(a: seq<Member>, b: seq<Member>) {
    (forall i :: 0 <= i < |a| ==> a[i] in b) && (forall i :: 0 <= i < |b| ==> b[i] in a)
  }

  /** Two orderings of the same members are the same. */
  lemma {:induction false} OrderIsUnique(a: seq<Member>, b: seq<Member>)
    requires Ordered(a) && Ordered(b) && SameMembers(a, b)
    ensures a == b
    decreases |a|
  {
    assert (b != [] ==> b[0] in a) && (a != [] ==> a[0] in b);
    if a != [] && b != [] {
      SameHead(a, b);
      TailIn(a, b);
      TailIn(b, a);
      OrderIsUnique(a[1..], b[1..]);
      assert a == [a[0]] + a[1..] && b == [b[0]] + b[1..];
    }
  }

  lemma SameHead(a: seq<Member>, b: seq<Member>)
    requires a != [] && b != [] && Ordered(a) && Ordered(b) && SameMembers(a, b)
    ensures a[0] == b[0]
  {
    assert a[0] in b && b[0] in a;
    var i :| 0 <= i < |b| && b[i] == a[0];
    var j :| 0 <= j < |a| && a[j] == b[0];
    if i > 0 && j > 0 {
      HeadIsLeast(b, i);
      HeadIsLeast(a, j);
      LessAsymmetric(a[0].name, b[0].name);
      assert false;
    }
  }

  lemma TailIn(a: seq<Member>, b: seq<Member>)
    requires a != [] && b != [] && a[0] == b[0] && Ordered(a) && SameMembers(a, b)
    ensures forall i :: 0 <= i < |a[1..]| ==> a[1..][i] in b[1..]
  {
    hide Ordered;
    forall i | 0 <= i < |a[1..]| ensures a[1..][i] in b[1..] {
      assert a[i + 1] in b;
      var j :| 0 <= j < |b| && b[j] == a[i + 1];
      HeadIsLeast(a, i + 1);
      LessAsymmetric(a[0].name, a[i + 1].name);
      assert b[1..][j - 1] == a[i + 1];
    }
  }

  predicate DistinctMembers(ms: seq<Member>) {
    forall i, j :: 0 <= i < j < |ms| ==> ms[i].name != ms[j].name
  }

  /** The members with their values sorted, in the old order. */
  function SortValues(members: seq<Member>): seq<Member>
    decreases members
  {
    if members == [] then [] else [SortMember(members[0])] + SortValues(members[1..])
  }

  lemma {:induction false} SortValuesAt(members: seq<Member>, i: nat)
    requires i < |members|
    ensures |SortValues(members)| == |members| && SortValues(members)[i] == SortMember(members[i])
  {
    hide SortMember;
    if |members| > 1 {
      SortValuesAt(members[1..], if i > 0 then i - 1 else 0);
    }
  }

  /** Sorting members loses none and adds none. */
  lemma {:induction false} SortPermutes(members: seq<Member>)
    ensures multiset(SortMembers(members)) == multiset(SortValues(members))
  {
    hide SortMember, Insert;
    if members != [] {
      SortPermutes(members[1..]);
    }
  }

  lemma NamesStayApart(members: seq<Member>, sorted: seq<Member>)
    requires members != [] && DistinctMembers(members)
    requires multiset(sorted) == multiset(SortValues(members[1..]))
    ensures forall i :: 0 <= i < |sorted| ==> sorted[i].name != members[0].name
  {
    hide SortKeys;
    forall i | 0 <= i < |sorted| ensures sorted[i].name != members[0].name {
      assert sorted[i] in multiset(sorted);
      var values := SortValues(members[1..]);
      var j :| 0 <= j < |values| && values[j] == sorted[i];
      SortedFrom(members[1..], j);
      assert members[1..][j] == members[j + 1];
    }
  }

  lemma SortedFrom(members: seq<Member>, j: nat)
    requires j < |SortValues(members)|
    ensures j < |members| && SortValues(members)[j].name == members[j].name
  {
    SortValuesLength(members);
    SortValuesAt(members, j);
  }

  lemma {:induction false} SortValuesLength(members: seq<Member>)
    ensures |SortValues(members)| == |members|
  {
    if members != [] {
      SortValuesLength(members[1..]);
    }
  }

  /** Members with distinct names come out in strict order. */
  lemma {:induction false} SortOrders(members: seq<Member>)
    requires DistinctMembers(members)
    ensures Ordered(SortMembers(members))
  {
    hide SortKeys, Insert, Ordered, SortValues;
    if members != [] {
      SortOrders(members[1..]);
      SortPermutes(members[1..]);
      NamesStayApart(members, SortMembers(members[1..]));
      InsertKeepsOrder(SortMember(members[0]), SortMembers(members[1..]));
    } else {
      NothingIsOrdered();
    }
  }

  lemma NothingIsOrdered()
    ensures Ordered([])
  {
  }

  /** Sorting puts every object of a value in order, at every depth. */
  lemma {:induction false} SortSorts(v: Value)
    requires DistinctNames(v)
    ensures KeysSorted(SortKeys(v))
    decreases v
  {
    match v
    case List(items) => SortSortsItems(items);
    case Object(members) =>
      SortSortsValues(members);
      SortOrders(members);
      SortPermutes(members);
      ValuesOfPermutation(SortValues(members), SortMembers(members));
    case _ =>
  }

  lemma ValuesOfPermutation(a: seq<Member>, b: seq<Member>)
    requires multiset(a) == multiset(b) && forall i :: 0 <= i < |a| ==> KeysSorted(a[i].value)
    ensures forall i :: 0 <= i < |b| ==> KeysSorted(b[i].value)
  {
    hide KeysSorted;
    forall i | 0 <= i < |b| ensures KeysSorted(b[i].value) {
      assert b[i] in multiset(a);
    }
  }

  lemma {:induction false} SortSortsItems(items: seq<Value>)
    requires forall i :: 0 <= i < |items| ==> DistinctNames(items[i])
    ensures forall i :: 0 <= i < |SortItems(items)| ==> KeysSorted(SortItems(items)[i])
    decreases items
  {
    if items != [] {
      SortSorts(items[0]);
      SortSortsItems(items[1..]);
    }
  }

  lemma {:induction false} SortSortsValues(members: seq<Member>)
    requires forall i :: 0 <= i < |members| ==> DistinctNames(members[i].value)
    ensures forall i :: 0 <= i < |SortValues(members)| ==> KeysSorted(SortValues(members)[i].value)
    decreases members
  {
    if members != [] {
      var m := members[0];
      assert m.value < m;
      SortSorts(m.value);
      SortSortsValues(members[1..]);
    }
  }

  /** What sorting does to a whole value with distinct names: every object at every depth is
      in strict order, and an object's members are a permutation of the sorted members it
      had. */
  lemma SortIsOrderedPermutation(v: Value)
    requires DistinctNames(v)
    ensures KeysSorted(SortKeys(v))
    ensures v.Object? ==>
      && Ordered(SortKeys(v).members)
      && multiset(SortKeys(v).members) == multiset(SortValues(v.members))
      && |SortValues(v.members)| == |v.members|
      && forall i :: 0 <= i < |v.members| ==>
        SortValues(v.members)[i] == Member(v.members[i].name, SortKeys(v.members[i].value))
  {
    SortSorts(v);
    if v.Object? {
      SortPermutes(v.members);
      SortValuesLength(v.members);
      forall i | 0 <= i < |v.members|
        ensures SortValues(v.members)[i] == Member(v.members[i].name, SortKeys(v.members[i].value))
      {
        SortValuesAt(v.members, i);
      }
    }
  }

  lemma {:induction false} SortedValuesStay(members: seq<Member>)
    requires forall i :: 0 <= i < |members| ==> SortKeys(members[i].value) == members[i].value
    ensures SortValues(members) == members
  {
    hide SortKeys;
    if members != [] {
      SortedValuesStay(members[1..]);
      assert members == [members[0]] + members[1..];
    }
  }

  /** So it is whatever ordered listing of the same members one can name. */
  lemma SortIs(ms: seq<Member>, target: seq<Member>)
    requires DistinctMembers(ms) && forall i :: 0 <= i < |ms| ==> SortKeys(ms[i].value) == ms[i].value
    requires Ordered(target) && SameMembers(ms, target)
    ensures SortMembers(ms) == target
  {
    hide Ordered, SortMembers, SortKeys, DistinctMembers;
    SortOrders(ms);
    SortPermutes(ms);
    SortedValuesStay(ms);
    SameAfterSort(ms, SortMembers(ms), target);
    OrderIsUnique(SortMembers(ms), target);
  }

  lemma SameAfterSort(ms: seq<Member>, sorted: seq<Member>, target: seq<Member>)
    requires multiset(sorted) == multiset(ms) && SameMembers(ms, target)
    ensures SameMembers(sorted, target)
  {
    forall i | 0 <= i < |sorted| ensures sorted[i] in target {
      assert sorted[i] in multiset(ms);
    }
    forall i | 0 <= i < |target| ensures target[i] in sorted {
      assert target[i] in multiset(sorted);
    }
  }

  /** Two listings of the same members, by where each member of one stands in the other. */
  lemma SameByPositions(a: seq<Member>, b: seq<Member>, inB: seq<nat>, inA: seq<nat>)
    requires |inB| == |a| && |inA| == |b|
    requires forall i :: 0 <= i < |a| ==> inB[i] < |b| && b[inB[i]] == a[i]
    requires forall i :: 0 <= i < |b| ==> inA[i] < |a| && a[inA[i]] == b[i]
    ensures SameMembers(a, b)
  {
  }

  // ---------------------------------------------------------------- members found by name

  lemma {:induction false} OrderedIsDistinct(ms: seq<Member>)
    requires Ordered(ms)
    ensures DistinctMembers(ms)
  {
    if ms != [] {
      OrderedIsDistinct(ms[1..]);
      forall j | 0 < j < |ms| ensures ms[0].name != ms[j].name {
        HeadIsLeast(ms, j);
        LessAsymmetric(ms[0].name, ms[j].name);
      }
      forall i, j | 0 < i < j < |ms| ensures ms[i].name != ms[j].name {
        assert ms[1..][i - 1].name != ms[1..][j - 1].name;
      }
    }
  }

  function NameSet(ms: seq<Member>): set<string> {
    if ms == [] then {} else {ms[0].name} + NameSet(ms[1..])
  }

  lemma {:induction false} NameSetContains(ms: seq<Member>, name: string)
    ensures name in NameSet(ms) <==> exists i :: 0 <= i < |ms| && ms[i].name == name
  {
    if ms != [] {
      NameSetContains(ms[1..], name);
      if name in NameSet(ms[1..]) {
        var i :| 0 <= i < |ms[1..]| && ms[1..][i].name == name;
        assert ms[i + 1].name == name;
      }
      if exists i :: 0 < i < |ms| && ms[i].name == name {
        var i :| 0 < i < |ms| && ms[i].name == name;
        assert ms[1..][i - 1].name == name;
      }
    }
  }

  lemma {:induction false} NameSetSize(ms: seq<Member>)
    requires DistinctMembers(ms)
    ensures |NameSet(ms)| == |ms|
  {
    if ms != [] {
      NameSetSize(ms[1..]);
      NameSetContains(ms[1..], ms[0].name);
    }
  }

  lemma SubsetOfSameSize(a: set<string>, b: set<string>)
    requires a <= b && |a| == |b|
    ensures a == b
  {
    assert b == a + (b - a);
  }

  /** As many distinct names on both sides, and each of one side on the other: the same. */
  lemma NamesAgree(a: seq<Member>, b: seq<Member>, j: nat)
    requires DistinctMembers(a) && DistinctMembers(b) && |a| == |b| && j < |b|
    requires forall i :: 0 <= i < |a| ==> a[i].name in NameSet(b)
    ensures exists i :: 0 <= i < |a| && a[i].name == b[j].name
  {
    hide DistinctMembers;
    NameSetSize(a);
    NameSetSize(b);
    forall name | name in NameSet(a) ensures name in NameSet(b) {
      NameSetContains(a, name);
    }
    SubsetOfSameSize(NameSet(a), NameSet(b));
    NameSetContains(b, b[j].name);
    NameSetContains(a, b[j].name);
  }

  /** Some member has this name, and this value when sorted. */
  ghost predicate HasSorted(ms: seq<Member>, m: Member) {
    exists j :: 0 <= j < |ms| && ms[j].name == m.name && m.value == SortKeys(ms[j].value)
  }

  /** What sorting gives when `target` lists, in order, each member by its name. */
  lemma SortByName(ms: seq<Member>, target: seq<Member>)
    requires DistinctMembers(ms) && Ordered(target) && |ms| == |target|
    requires forall i :: 0 <= i < |target| ==> HasSorted(ms, target[i])
    ensures SortMembers(ms) == target
  {
    hide Ordered, SortKeys, SortMembers;
    OrderedIsDistinct(target);
    SortValuesLength(ms);
    forall i | 0 <= i < |target| ensures target[i] in SortValues(ms) && target[i].name in NameSet(ms) {
      var j :| 0 <= j < |ms| && ms[j].name == target[i].name && target[i].value == SortKeys(ms[j].value);
      SortValuesAt(ms, j);
      assert SortValues(ms)[j] == target[i];
      NameSetContains(ms, target[i].name);
    }
    forall j | 0 <= j < |ms| ensures SortValues(ms)[j] in target {
      NamesAgree(target, ms, j);
      var i :| 0 <= i < |target| && target[i].name == ms[j].name;
      SortValuesAt(ms, j);
      assert target[i] == SortValues(ms)[j];
    }
    SortOrders(ms);
    SortPermutes(ms);
    SameAfterSort(SortValues(ms), SortMembers(ms), target);
    OrderIsUnique(SortMembers(ms), target);
  }
}
