/** The host directory behind both stores: per key one committed file and one sibling
    candidate file.  A commit writes the candidate, reads it back, renames it over the
    committed file and syncs the directory.  The ghost trail records every content of
    the directory that a crash could leave behind. */
module HostFiles {
  import opened Wrappers

  datatype Path = CommittedFile(key: string) | CandidateFile(key: string)

  type Files = map<Path, string>

  datatype ReadBack = Faithful | ReadFails | Corrupted(bytes: string)

  /** What the operating system does to one commit.  `torn` is what the candidate file
      holds if the write is cut short. */
  datatype WriteFaults = WriteFaults(
    torn: string, writeFails: bool, readBack: ReadBack, replaceFails: bool, syncFails: bool)

  datatype WriteOutcome = NotReplaced | ReplacedUnsynced | Replaced

  function BytesRead(raw: string, r: ReadBack): Option<string> {
    match r
    case Faithful => Some(raw)
    case ReadFails => None
    case Corrupted(bytes) => Some(bytes)
  }

  function ReplaceOutcome(raw: string, accepts: string -> bool, f: WriteFaults): WriteOutcome {
    var read := BytesRead(raw, f.readBack);
    if f.writeFails || read.None? || !accepts(read.value) || f.replaceFails then NotReplaced
    else if f.syncFails then ReplacedUnsynced
    else Replaced
  }

  lemma ReplaceOutcomeIs(raw: string, accepts: string -> bool, f: WriteFaults)
    ensures ReplaceOutcome(raw, accepts, f) != NotReplaced <==>
      && !f.writeFails && !f.replaceFails
      && match f.readBack
         case Faithful => accepts(raw)
         case ReadFails => false
         case Corrupted(bytes) => accepts(bytes)
  {
  }

  /** Same committed files in both directories, `key` aside. */
  ghost predicate SameCommitted(a: Files, b: Files, key: string) {
    forall k :: k != key ==> AtKey(a, k) == AtKey(b, k)
  }

  function AtKey(files: Files, key: string): Option<string> {
    if CommittedFile(key) in files then Some(files[CommittedFile(key)]) else None
  }

  class HostDirectory {
    var files: Files
    ghost var trail: seq<Files>

    constructor ()
      ensures files == map[] && trail == []
    {
      files, trail := map[], [];
    }

    method Write(key: string, content: string)
      modifies this
      ensures files == old(files)[CandidateFile(key) := content]
      ensures trail == old(trail) + [files]
    {
      files := files[CandidateFile(key) := content];
      trail := trail + [files];
    }

    method Rename(key: string)
      requires CandidateFile(key) in files
      modifies this
      ensures files == old(files)[CommittedFile(key) := old(files)[CandidateFile(key)]] - {CandidateFile(key)}
      ensures trail == old(trail) + [files]
    {
      files := files[CommittedFile(key) := files[CandidateFile(key)]] - {CandidateFile(key)};
      trail := trail + [files];
    }

    /** Replace the committed file of `key` by `raw`.  Whatever goes wrong, and wherever
        a crash strikes, the committed file is the old one or holds exactly `raw`, and no
        other committed file changes. */
    method Replace(key: string, raw: string, accepts: string -> bool, f: WriteFaults)
      returns (outcome: WriteOutcome)
      modifies this
      ensures outcome == ReplaceOutcome(raw, accepts, f)
      ensures outcome != NotReplaced <==>
        && !f.writeFails && !f.replaceFails
        && match f.readBack
           case Faithful => accepts(raw)
           case ReadFails => false
           case Corrupted(bytes) => accepts(bytes)
      ensures outcome == ReplacedUnsynced <==> outcome != NotReplaced && f.syncFails
      ensures AtKey(files, key) == if outcome == NotReplaced then old(AtKey(files, key)) else Some(raw)
      ensures SameCommitted(old(files), files, key)
      ensures |old(trail)| <= |trail| && trail[..|old(trail)|] == old(trail)
      ensures forall i :: |old(trail)| <= i < |trail| ==>
        && SameCommitted(old(files), trail[i], key)
        && (AtKey(trail[i], key) == old(AtKey(files, key)) || AtKey(trail[i], key) == Some(raw))
      ensures outcome == NotReplaced ==>
        forall i :: |old(trail)| <= i < |trail| ==> AtKey(trail[i], key) == old(AtKey(files, key))
    {
      ReplaceOutcomeIs(raw, accepts, f);
      hide BytesRead;
      Write(key, "");
      Write(key, f.torn);
      if f.writeFails {
        return NotReplaced;
      }
      Write(key, raw);
      var read := BytesRead(raw, f.readBack);
      if read.None? || !accepts(read.value) || f.replaceFails {
        return NotReplaced;
      }
      Rename(key);
      outcome := if f.syncFails then ReplacedUnsynced else Replaced;
    }
  }
}
