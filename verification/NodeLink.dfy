/** The node-link adapter: frame sequence numbers and heartbeat timing over a transport
    that may refuse any frame. */
module NodeLink {
  const UINT32_MAX: nat := 0xFFFF_FFFF
  const HEARTBEAT_MS: nat := 1000
  const LAST_STATE: nat := 5

  datatype Kind = HELLO | HEARTBEAT

  /** An accepted frame, and the tick count when it was accepted. */
  datatype Frame = Frame(kind: Kind, sequence: nat, epoch: nat, nodeId: nat, state: nat, tick: nat)

  datatype Outcome =
    | OK | ERROR_NODE_ID_ZERO | ERROR_EPOCH_ZERO | ERROR_TRANSPORT_NOT_CONFIGURED | ERROR_INVALID_STATE
    | ERROR_SEQUENCE_EXHAUSTED | ERROR_ENCODE | ERROR_TRANSPORT

  /** The adapter's fields, and what an observer has seen of it: sends attempted, frames
      accepted, ticks counted. */
  datatype Link = Link(
    nodeId: nat, epoch: nat, configured: bool, state: nat, nextSequence: nat, exhausted: bool, elapsed: nat,
    attempts: nat, sent: seq<Frame>, ticks: nat)

  /** How the environment answers the n-th attempt: does it encode, is it accepted. */
  datatype Environment = Environment(encodes: nat -> bool, accepts: nat -> bool)

  function Init(nodeId: nat, epoch: nat): Link {
    Link(nodeId, epoch, false, 0, 1, false, 0, 0, [], 0)
  }

  function Send(env: Environment, l: Link, kind: Kind): (Link, Outcome) {
    if !l.configured then (l, ERROR_TRANSPORT_NOT_CONFIGURED)
    else if l.exhausted then (l, ERROR_SEQUENCE_EXHAUSTED)
    else
      var tried := l.(attempts := l.attempts + 1);
      if !env.encodes(l.attempts) then (tried, ERROR_ENCODE)
      else if !env.accepts(l.attempts) then (tried, ERROR_TRANSPORT)
      else
        (tried.(sent := l.sent + [Frame(kind, l.nextSequence, l.epoch, l.nodeId, l.state, l.ticks)],
                exhausted := l.nextSequence == UINT32_MAX,
                nextSequence := if l.nextSequence == UINT32_MAX then UINT32_MAX else l.nextSequence + 1), OK)
  }

  function Tick(l: Link): Link {
    l.(ticks := l.ticks + 1, elapsed := if l.elapsed < HEARTBEAT_MS then l.elapsed + 1 else l.elapsed)
  }

  function Poll(env: Environment, l: Link): (Link, Outcome) {
    if l.elapsed < HEARTBEAT_MS then (l, OK)
    else
      var (l', r) := Send(env, l, HEARTBEAT);
      (if r == OK then l'.(elapsed := 0) else l', r)
  }

  function SetState(l: Link, code: nat): (Link, Outcome) {
    if code > LAST_STATE then (l, ERROR_INVALID_STATE) else (l.(state := code), OK)
  }

  // ---------------------------------------------------------------- in place

  class Adapter {
    const env: Environment
    const nodeId: nat
    const epoch: nat
    var configured: bool
    var state: nat
    var nextSequence: nat
    var exhausted: bool
    var elapsed: nat
    ghost var attempts: nat
    ghost var sent: seq<Frame>
    ghost var ticks: nat

    ghost function View(): Link
      reads this
    {
      Link(nodeId, epoch, configured, state, nextSequence, exhausted, elapsed, attempts, sent, ticks)
    }

    constructor (env: Environment, nodeId: nat, epoch: nat)
      requires nodeId != 0 && epoch != 0
      ensures View() == Init(nodeId, epoch) && this.env == env
    {
      this.env, this.nodeId, this.epoch := env, nodeId, epoch;
      configured, state, nextSequence, exhausted, elapsed := false, 0, 1, false, 0;
      attempts, sent, ticks := 0, [], 0;
    }

    method SetTransport(present: bool) returns (r: Outcome)
      modifies this`configured
      ensures View() == old(View()).(configured := old(configured) || present)
      ensures r == if present then OK else ERROR_TRANSPORT_NOT_CONFIGURED
    {
      if !present {
        return ERROR_TRANSPORT_NOT_CONFIGURED;
      }
      configured := true;
      r := OK;
    }

    method SetLocalState(code: nat) returns (r: Outcome)
      modifies this`state
      ensures (View(), r) == SetState(old(View()), code)
    {
      if code > LAST_STATE {
        return ERROR_INVALID_STATE;
      }
      state := code;
      r := OK;
    }

    /** The encoder and the transport answer for the attempt number they are given. */
    method Transmit(kind: Kind, encoded: bool, accepted: bool) returns (r: Outcome)
      requires encoded == env.encodes(attempts) && accepted == env.accepts(attempts)
      modifies this
      ensures (View(), r) == Send(env, old(View()), kind)
    {
      if !configured {
        return ERROR_TRANSPORT_NOT_CONFIGURED;
      }
      if exhausted {
        return ERROR_SEQUENCE_EXHAUSTED;
      }
      attempts := attempts + 1;
      if !encoded {
        return ERROR_ENCODE;
      }
      if !accepted {
        return ERROR_TRANSPORT;
      }
      sent := sent + [Frame(kind, nextSequence, epoch, nodeId, state, ticks)];
      if nextSequence == UINT32_MAX {
        exhausted := true;
      } else {
        nextSequence := nextSequence + 1;
      }
      r := OK;
    }

    method Tick1Ms()
      modifies this
      ensures View() == Tick(old(View()))
    {
      ticks := ticks + 1;
      if elapsed < HEARTBEAT_MS {
        elapsed := elapsed + 1;
      }
    }

    method PollHeartbeat(encoded: bool, accepted: bool) returns (r: Outcome)
      requires encoded == env.encodes(attempts) && accepted == env.accepts(attempts)
      modifies this
      ensures (View(), r) == Poll(env, old(View()))
    {
      if elapsed < HEARTBEAT_MS {
        return OK;
      }
      r := Transmit(HEARTBEAT, encoded, accepted);
      if r == OK {
        elapsed := 0;
      }
    }
  }

  /** A zero node identifier or epoch is refused before anything is set up. */
  method Initialize(env: Environment, nodeId: nat, epoch: nat) returns (r: Outcome, adapter: Adapter?)
    ensures r == if nodeId == 0 then ERROR_NODE_ID_ZERO else if epoch == 0 then ERROR_EPOCH_ZERO else OK
    ensures r == OK <==> adapter != null
    ensures adapter != null ==> fresh(adapter) && adapter.env == env && adapter.View() == Init(nodeId, epoch)
  {
    if nodeId == 0 {
      return ERROR_NODE_ID_ZERO, null;
    }
    if epoch == 0 {
      return ERROR_EPOCH_ZERO, null;
    }
    adapter := new Adapter(env, nodeId, epoch);
    r := OK;
  }

  // ---------------------------------------------------------------- every run

  datatype Event = TransportSet(present: bool) | StateSet(code: nat) | Ticked | HelloSent | Polled

  function Step(env: Environment, l: Link, e: Event): Link {
    match e
    case TransportSet(present) => l.(configured := l.configured || present)
    case StateSet(code) => SetState(l, code).0
    case Ticked => Tick(l)
    case HelloSent => Send(env, l, HELLO).0
    case Polled => Poll(env, l).0
  }

  function Run(env: Environment, l: Link, es: seq<Event>): Link {
    if es == [] then l else Step(env, Run(env, l, es[..|es| - 1]), es[|es| - 1])
  }

  function Heartbeats(frames: seq<Frame>): nat {
    if frames == [] then 0
    else Heartbeats(frames[..|frames| - 1]) + if frames[|frames| - 1].kind == HEARTBEAT then 1 else 0
  }

  /** The n-th accepted frame carries n, counting from 1. */
  predicate Numbered(l: Link) {
    forall i :: 0 <= i < |l.sent| ==>
      l.sent[i].sequence == i + 1 && l.sent[i].epoch == l.epoch && l.sent[i].nodeId == l.nodeId
  }

  /** Accepted heartbeats are at least an interval apart, and the last is at least the
      elapsed time ago. */
  predicate Spaced(l: Link) {
    && (forall i, j :: 0 <= i < j < |l.sent| && l.sent[i].kind == HEARTBEAT && l.sent[j].kind == HEARTBEAT ==>
          l.sent[i].tick + HEARTBEAT_MS <= l.sent[j].tick)
    && (forall i :: 0 <= i < |l.sent| && l.sent[i].kind == HEARTBEAT ==> l.sent[i].tick + l.elapsed <= l.ticks)
  }

  predicate Inv(l: Link) {
    && Numbered(l) && Spaced(l)
    && |l.sent| <= UINT32_MAX
    && l.nextSequence == (if |l.sent| == UINT32_MAX then UINT32_MAX else |l.sent| + 1)
    && (l.exhausted <==> |l.sent| == UINT32_MAX)
    && l.elapsed <= HEARTBEAT_MS
    && HEARTBEAT_MS * Heartbeats(l.sent) + l.elapsed <= l.ticks
  }

  lemma SendKeepsInv(env: Environment, l: Link, kind: Kind)
    requires Inv(l) && (kind == HEARTBEAT ==> l.elapsed == HEARTBEAT_MS)
    ensures var (l', r) := Send(env, l, kind); Inv(if kind == HEARTBEAT && r == OK then l'.(elapsed := 0) else l')
  {
    var (l', r) := Send(env, l, kind);
    if r == OK {
      var now := if kind == HEARTBEAT then l'.(elapsed := 0) else l';
      SentIsNumbered(l, l'.sent[|l.sent|], now);
      SentIsSpaced(l, l'.sent[|l.sent|], now);
      SentIsCounted(l.sent, l'.sent[|l.sent|]);
    }
    hide Numbered, Spaced, Heartbeats;
  }

  lemma SentIsNumbered(l: Link, f: Frame, l': Link)
    requires Numbered(l) && l'.sent == l.sent + [f] && l'.epoch == l.epoch && l'.nodeId == l.nodeId
    requires f.sequence == |l.sent| + 1 && f.epoch == l.epoch && f.nodeId == l.nodeId
    ensures Numbered(l')
  {
  }

  lemma SentIsSpaced(l: Link, f: Frame, l': Link)
    requires Spaced(l) && l'.sent == l.sent + [f] && l'.ticks == l.ticks == f.tick
    requires if f.kind == HEARTBEAT then l.elapsed == HEARTBEAT_MS && l'.elapsed == 0 else l'.elapsed == l.elapsed
    ensures Spaced(l')
  {
  }

  lemma SentIsCounted(frames: seq<Frame>, f: Frame)
    ensures Heartbeats(frames + [f]) == Heartbeats(frames) + if f.kind == HEARTBEAT then 1 else 0
  {
    assert (frames + [f])[..|frames|] == frames;
  }

  lemma StepKeepsInv(env: Environment, l: Link, e: Event)
    requires Inv(l)
    ensures Inv(Step(env, l, e))
  {
    hide Numbered, Heartbeats, Send;
    match e
    case HelloSent => SendKeepsInv(env, l, HELLO);
    case Polled =>
      if l.elapsed == HEARTBEAT_MS {
        SendKeepsInv(env, l, HEARTBEAT);
      }
    case TransportSet(present) => SameFrames(l, Step(env, l, e));
    case StateSet(code) => SameFrames(l, Step(env, l, e));
    case Ticked => SameFrames(l, Step(env, l, e));
  }

  lemma SameFrames(l: Link, l': Link)
    requires Numbered(l) && l'.sent == l.sent && l'.epoch == l.epoch && l'.nodeId == l.nodeId
    ensures Numbered(l')
  {
  }

  lemma {:induction false} RunKeepsInv(env: Environment, nodeId: nat, epoch: nat, es: seq<Event>)
    ensures Inv(Run(env, Init(nodeId, epoch), es))
  {
    if es != [] {
      hide Inv, Step;
      RunKeepsInv(env, nodeId, epoch, es[..|es| - 1]);
      StepKeepsInv(env, Run(env, Init(nodeId, epoch), es[..|es| - 1]), es[|es| - 1]);
    }
  }

  /** In every run the accepted frames carry exactly 1, 2, 3, … with nothing after 2^32 - 1,
      however often encoding or transport fails in between. */
  lemma FramesAreNumbered(env: Environment, nodeId: nat, epoch: nat, es: seq<Event>)
    ensures var l := Run(env, Init(nodeId, epoch), es);
      |l.sent| <= UINT32_MAX && forall i :: 0 <= i < |l.sent| ==>
        l.sent[i].sequence == i + 1 && l.sent[i].epoch == l.epoch
  {
    RunKeepsInv(env, nodeId, epoch, es);
  }

  /** In every run accepted heartbeats are at least 1000 ticks apart, and 1000 times their
      number plus the elapsed time never exceeds the number of ticks. */
  lemma HeartbeatsAreSpaced(env: Environment, nodeId: nat, epoch: nat, es: seq<Event>)
    ensures var l := Run(env, Init(nodeId, epoch), es);
      && HEARTBEAT_MS * Heartbeats(l.sent) + l.elapsed <= l.ticks
      && forall i, j :: 0 <= i < j < |l.sent| && l.sent[i].kind == HEARTBEAT && l.sent[j].kind == HEARTBEAT ==>
        l.sent[i].tick + HEARTBEAT_MS <= l.sent[j].tick
  {
    RunKeepsInv(env, nodeId, epoch, es);
  }

  // ---------------------------------------------------------------- what is sent, and when

  /** Everything but attempts, frames and sequence numbers is as before. */
  predicate SettingsKept(l: Link, l': Link) {
    && l'.nodeId == l.nodeId && l'.epoch == l.epoch && l'.configured == l.configured && l'.state == l.state
    && l'.ticks == l.ticks
  }

  /** One send, from any reachable adapter: refused without an attempt when there is no
      transport or no number left, otherwise one attempt, and one frame with the next number
      iff it encodes and is accepted. */
  lemma SendMeans(env: Environment, l: Link, kind: Kind)
    requires Inv(l)
    ensures var (l', r) := Send(env, l, kind);
      var attempted := l.configured && |l.sent| < 0xFFFF_FFFF;
      && (r == ERROR_TRANSPORT_NOT_CONFIGURED <==> !l.configured)
      && (r == ERROR_SEQUENCE_EXHAUSTED <==> l.configured && |l.sent| == 0xFFFF_FFFF)
      && (r == ERROR_ENCODE <==> attempted && !env.encodes(l.attempts))
      && (r == ERROR_TRANSPORT <==> attempted && env.encodes(l.attempts) && !env.accepts(l.attempts))
      && (r == OK <==> attempted && env.encodes(l.attempts) && env.accepts(l.attempts))
      && l'.attempts == (if attempted then l.attempts + 1 else l.attempts)
      && l'.sent == (if r == OK then l.sent + [Frame(kind, |l.sent| + 1, l.epoch, l.nodeId, l.state, l.ticks)]
                     else l.sent)
      && SettingsKept(l, l') && l'.elapsed == l.elapsed
  {
    hide Numbered, Spaced, Heartbeats;
  }

  /** The codes 0 to 5 are states; any other is refused and changes nothing. */
  lemma StatesAre(l: Link, code: nat)
    ensures SetState(l, code)
      == if code in {0, 1, 2, 3, 4, 5} then (l.(state := code), OK) else (l, ERROR_INVALID_STATE)
  {
  }

  /** A poll before the interval is over does nothing; one after it sends a heartbeat, and
      starts a new interval iff that is accepted. */
  lemma PollMeans(env: Environment, l: Link)
    requires Inv(l)
    ensures l.elapsed < 1000 ==> Poll(env, l) == (l, OK)
    ensures l.elapsed == 1000 ==>
      var (l', r), (sent, s) := Poll(env, l), Send(env, l, HEARTBEAT);
      r == s && l' == sent.(elapsed := if s == OK then 0 else 1000)
  {
    hide Numbered, Spaced, Heartbeats;
    SendMeans(env, l, HEARTBEAT);
  }

  /** A transport, and then so many ticks, each followed by a poll. */
  function Rounds(n: nat): seq<Event> {
    if n == 0 then [TransportSet(true)] else Rounds(n - 1) + [Ticked, Polled]
  }

  ghost predicate NeverRefuses(env: Environment) {
    forall n :: env.encodes(n) && env.accepts(n)
  }

  /** So many ticks counted, one heartbeat in each thousand, the k-th at tick 1000 k. */
  predicate OnTime(l: Link, n: nat) {
    && l.configured && l.ticks == n && l.elapsed == n % 1000
    && |l.sent| == n / 1000
    && forall i :: 0 <= i < |l.sent| ==> l.sent[i].kind == HEARTBEAT && l.sent[i].tick == 1000 * (i + 1)
  }

  /** While nothing is refused, every due heartbeat is sent at once. */
  lemma {:induction false} HeartbeatsAreSent(env: Environment, nodeId: nat, epoch: nat, n: nat)
    requires NeverRefuses(env) && n / 1000 <= 0xFFFF_FFFF
    ensures OnTime(Run(env, Init(nodeId, epoch), Rounds(n)), n)
  {
    var start := Init(nodeId, epoch);
    if n == 0 {
      assert Rounds(0)[..0] == [];
      assert Run(env, start, Rounds(0)) == Step(env, Run(env, start, []), TransportSet(true));
    } else {
      hide OnTime, Run, Inv, Step;
      HeartbeatsAreSent(env, nodeId, epoch, n - 1);
      RunKeepsInv(env, nodeId, epoch, Rounds(n - 1) + [Ticked]);
      TwoMore(env, start, Rounds(n - 1), Ticked, Polled);
      OneRound(env, Run(env, start, Rounds(n - 1)), n);
    }
  }

  lemma OneRound(env: Environment, l: Link, n: nat)
    requires NeverRefuses(env) && 0 < n && n / 1000 <= 0xFFFF_FFFF && OnTime(l, n - 1)
    requires Inv(Step(env, l, Ticked))
    ensures OnTime(Step(env, Step(env, l, Ticked), Polled), n)
  {
    var ticked := Step(env, l, Ticked);
    assert ticked == Tick(l);
    PollMeans(env, ticked);
    SendMeans(env, ticked, HEARTBEAT);
    hide Inv, Send, Poll;
    assert ticked.elapsed == (n - 1) % 1000 + 1;
    if ticked.elapsed == 1000 {
      assert n % 1000 == 0 && n / 1000 == (n - 1) / 1000 + 1 && n == 1000 * (n / 1000);
    } else {
      assert n % 1000 == ticked.elapsed && n / 1000 == (n - 1) / 1000;
    }
  }

  lemma TwoMore(env: Environment, l: Link, es: seq<Event>, e: Event, f: Event)
    ensures Run(env, l, es + [e]) == Step(env, Run(env, l, es), e)
    ensures Run(env, l, es + [e, f]) == Step(env, Step(env, Run(env, l, es), e), f)
  {
    hide Step;
    assert (es + [e])[..|es|] == es;
    assert (es + [e, f])[..|es| + 1] == es + [e];
  }
}
