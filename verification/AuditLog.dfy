/** The append-only hash chain that several processes extend under one file lock. */
module AuditLog {
  import opened Outcomes

  /** The hashed part of an event: all its fields in canonical form, and the hash it claims to follow. */
  datatype Record = Record(content: string, previousHash: Option<string>)

  /** The value under a key: absent, a string, or another JSON value together with how it prints. */
  datatype Field = Missing | Text(value: string) | Other(shown: string)

  /** One line of the file; `Garbage` is anything that does not parse to an object. */
  datatype Line = Blank | Garbage | Entry(record: Record, eventHash: Field)

  /** The file; `open` when its last line has no line end yet, because a write was cut short. */
  datatype File = File(lines: seq<Line>, open: bool)

  type Hash = (string, Record) -> string

  const GENESIS: string := "0000000000000000000000000000000000000000000000000000000000000000"

  /** What SHA-256 is relied on for: no collision, and nothing hashes to the genesis value. */
  ghost predicate Ideal(hash: Hash) {
    && (forall p, r, q, s :: hash(p, r) == hash(q, s) ==> p == q && r == s)
    && (forall p, r :: hash(p, r) != GENESIS)
  }

  datatype Verdict =
    | Valid(events: nat, head: string)
    | PreviousHashMismatch(line: nat)
    | EventHashMismatch(line: nat)
    | Raised

  function Follow(hash: Hash, before: Verdict, line: Line, number: nat): Verdict {
    if !before.Valid? then before
    else match line
      case Blank => Valid(number, before.head)
      case Garbage => Raised
      case Entry(record, eventHash) =>
        if record.previousHash != Some(before.head) then PreviousHashMismatch(number)
        else if eventHash != Text(hash(before.head, record)) then EventHashMismatch(number)
        else Valid(number, hash(before.head, record))
  }

  /** The verdict on a file, line by line from the genesis value. */
  function Verification(hash: Hash, lines: seq<Line>): Verdict {
    if lines == [] then Valid(0, GENESIS)
    else Follow(hash, Verification(hash, lines[..|lines| - 1]), lines[|lines| - 1], |lines|)
  }

  /** `str(...)` of the field. */
  function Printed(field: Field): Option<string> {
    match field
    case Missing => None
    case Text(value) => Some(value)
    case Other(shown) => Some(shown)
  }

  /** The hash the next event has to follow; None where reading the last line raises. */
  function LastHash(lines: seq<Line>): Option<string> {
    if lines == [] then Some(GENESIS)
    else match lines[|lines| - 1]
      case Blank => LastHash(lines[..|lines| - 1])
      case Garbage => None
      case Entry(record, eventHash) => Printed(eventHash)
  }

  function NextEntry(hash: Hash, previous: string, content: string): Line {
    var record := Record(content, Some(previous));
    Entry(record, Text(hash(previous, record)))
  }

  /** What is written lands on an open last line; two objects on one line do not parse. */
  function Extended(file: File, line: Line): seq<Line> {
    if file.open && file.lines != [] then
      var last := |file.lines| - 1;
      file.lines[..last] + [if file.lines[last].Blank? then line else Garbage]
    else file.lines + [line]
  }

  function Events(lines: seq<Line>): seq<Line> {
    if lines == [] then []
    else
      var last := lines[|lines| - 1];
      Events(lines[..|lines| - 1]) + if last == Blank then [] else [last]
  }

  // ---- Chain properties ----

  lemma {:induction false} HeadIsLastHash(hash: Hash, lines: seq<Line>)
    requires Verification(hash, lines).Valid?
    ensures LastHash(lines) == Some(Verification(hash, lines).head)
  {
    if lines != [] && lines[|lines| - 1].Blank? {
      HeadIsLastHash(hash, lines[..|lines| - 1]);
    }
  }

  /** Appending to a verifying log succeeds and the longer log verifies, one event further. */
  lemma AppendKeepsChain(hash: Hash, lines: seq<Line>, content: string)
    requires Verification(hash, lines).Valid?
    ensures LastHash(lines) == Some(Verification(hash, lines).head)
    ensures var entry := NextEntry(hash, Verification(hash, lines).head, content);
      Verification(hash, lines + [entry]) == Valid(|lines| + 1, hash(Verification(hash, lines).head, entry.record))
  {
    HeadIsLastHash(hash, lines);
    var entry := NextEntry(hash, Verification(hash, lines).head, content);
    assert (lines + [entry])[..|lines|] == lines;
  }

  /** A log that fails verification keeps exactly its verdict, whatever is appended. */
  lemma {:induction false} NeverRepaired(hash: Hash, lines: seq<Line>, more: seq<Line>)
    requires !Verification(hash, lines).Valid?
    ensures Verification(hash, lines + more) == Verification(hash, lines)
  {
    if more == [] {
      assert lines + more == lines;
    } else {
      NeverRepaired(hash, lines, more[..|more| - 1]);
      assert (lines + more)[..|lines + more| - 1] == lines + more[..|more| - 1];
    }
  }

  lemma {:induction false} NoEventsHead(hash: Hash, lines: seq<Line>)
    requires Ideal(hash) && Verification(hash, lines).Valid?
    ensures Verification(hash, lines).head == GENESIS <==> Events(lines) == []
  {
    if lines != [] {
      NoEventsHead(hash, lines[..|lines| - 1]);
    }
  }

  /** The head pins the whole history: verifying logs with one head hold the same events. */
  lemma {:induction false} SameHeadSameHistory(hash: Hash, a: seq<Line>, b: seq<Line>)
    requires Ideal(hash) && Verification(hash, a).Valid? && Verification(hash, b).Valid?
    requires Verification(hash, a).head == Verification(hash, b).head
    ensures Events(a) == Events(b)
    decreases |a| + |b|
  {
    if a != [] && a[|a| - 1].Blank? {
      SameHeadSameHistory(hash, a[..|a| - 1], b);
    } else if b != [] && b[|b| - 1].Blank? {
      SameHeadSameHistory(hash, a, b[..|b| - 1]);
    } else if a == [] || b == [] {
      NoEventsHead(hash, a);
      NoEventsHead(hash, b);
    } else {
      var p, q := Verification(hash, a[..|a| - 1]).head, Verification(hash, b[..|b| - 1]).head;
      assert hash(p, a[|a| - 1].record) == hash(q, b[|b| - 1].record);
      SameHeadSameHistory(hash, a[..|a| - 1], b[..|b| - 1]);
    }
  }

  // ---- Many writers, one lock ----

  /** Where the process inside the lock stands. */
  datatype Stage = Entered | HasRead(previous: string) | Wrote

  datatype System = System(file: File, holder: Option<(nat, Stage)>)

  /** How much of an event reached the file when its writer died: too little to parse, or all but the line end. */
  datatype Torn = Partial | Unended

  datatype Step =
    | Lock(process: nat)
    | ReadLast(process: nat)
    | Write(process: nat, content: string)
    | TornWrite(process: nat, content: string, torn: Torn)
    | Unlock(process: nat)
    | Crash(process: nat)

  ghost predicate Holds(s: System, process: nat) {
    s.holder.Some? && s.holder.value.0 == process
  }

  ghost predicate Enabled(s: System, step: Step) {
    match step
    case Lock(p) => s.holder.None?
    case ReadLast(p) => Holds(s, p) && s.holder.value.1 == Entered && LastHash(s.file.lines).Some?
    case Write(p, content) => Holds(s, p) && s.holder.value.1.HasRead?
    case TornWrite(p, content, torn) => Holds(s, p) && s.holder.value.1.HasRead?
    case Unlock(p) => Holds(s, p)
    case Crash(p) => Holds(s, p)
  }

  ghost function Next(hash: Hash, s: System, step: Step): System
    requires Enabled(s, step)
  {
    match step
    case Lock(p) => s.(holder := Some((p, Entered)))
    case ReadLast(p) => s.(holder := Some((p, HasRead(LastHash(s.file.lines).value))))
    case Write(p, content) =>
      System(File(Extended(s.file, NextEntry(hash, s.holder.value.1.previous, content)), false), Some((p, Wrote)))
    case TornWrite(p, content, torn) =>
      var line := if torn.Unended? then NextEntry(hash, s.holder.value.1.previous, content) else Garbage;
      System(File(Extended(s.file, line), true), None)
    case Unlock(p) => s.(holder := None)
    case Crash(p) => s.(holder := None)
  }

  ghost predicate IsRun(hash: Hash, s: System, steps: seq<Step>)
    decreases |steps|
  {
    steps == [] || (Enabled(s, steps[0]) && IsRun(hash, Next(hash, s, steps[0]), steps[1..]))
  }

  ghost function After(hash: Hash, s: System, steps: seq<Step>): System
    requires IsRun(hash, s, steps)
    decreases |steps|
  {
    if steps == [] then s else After(hash, Next(hash, s, steps[0]), steps[1..])
  }

  /** Events that reached the file whole. */
  ghost function Writes(steps: seq<Step>): nat {
    if steps == [] then 0
    else (if steps[0].Write? || (steps[0].TornWrite? && steps[0].torn.Unended?) then 1 else 0) + Writes(steps[1..])
  }

  /** The file verifies, a hash read under the lock is still the current head, and an open last line is an event. */
  ghost predicate Chained(hash: Hash, s: System) {
    && Verification(hash, s.file.lines).Valid?
    && (s.file.open ==> s.file.lines != [] && !s.file.lines[|s.file.lines| - 1].Blank?)
    && (s.holder.Some? && s.holder.value.1.HasRead? ==>
      s.holder.value.1.previous == Verification(hash, s.file.lines).head)
  }

  /** The last line does not parse, and nobody has read past it. */
  ghost predicate Spoilt(s: System) {
    s.file.lines != [] && s.file.lines[|s.file.lines| - 1] == Garbage && !(s.holder.Some? && s.holder.value.1.HasRead?)
  }

  /** A write that breaks the file: one cut short inside the event, or any that lands on an unended line. */
  ghost predicate Breaks(s: System, step: Step) {
    (step.TornWrite? && step.torn.Partial?) || ((step.Write? || step.TornWrite?) && s.file.open)
  }

  ghost predicate NothingBreaks(hash: Hash, s: System, steps: seq<Step>)
    requires IsRun(hash, s, steps)
    decreases |steps|
  {
    steps != [] ==> !Breaks(s, steps[0]) && NothingBreaks(hash, Next(hash, s, steps[0]), steps[1..])
  }

  lemma StepKeepsChain(hash: Hash, s: System, step: Step)
    requires Chained(hash, s) && Enabled(s, step)
    ensures !Breaks(s, step) ==> Chained(hash, Next(hash, s, step))
    ensures !Breaks(s, step) ==> |Next(hash, s, step).file.lines| == |s.file.lines| + Writes([step])
    ensures Breaks(s, step) ==> Spoilt(Next(hash, s, step))
  {
    assert Writes([step][1..]) == 0;
    if step.ReadLast? {
      HeadIsLastHash(hash, s.file.lines);
    }
    if step.Write? || step.TornWrite? {
      AppendKeepsChain(hash, s.file.lines, step.content);
    }
  }

  /** Once the last line does not parse, no append ever succeeds again and the file never verifies. */
  lemma {:induction false} SpoiltForever(hash: Hash, s: System, steps: seq<Step>)
    requires Spoilt(s) && IsRun(hash, s, steps)
    ensures After(hash, s, steps).file == s.file && !Verification(hash, s.file.lines).Valid?
    decreases |steps|
  {
    if steps != [] {
      SpoiltForever(hash, Next(hash, s, steps[0]), steps[1..]);
    }
  }

  /**
   Any number of processes, any interleaving, any crash, torn writes included: the file verifies if and only if
   no write was cut short inside an event and none landed on an unended line; then it holds one event per write.
   */
  lemma {:induction false} EveryInterleavingVerifies(hash: Hash, s: System, steps: seq<Step>)
    requires Chained(hash, s) && IsRun(hash, s, steps)
    ensures Verification(hash, After(hash, s, steps).file.lines).Valid? <==> NothingBreaks(hash, s, steps)
    ensures NothingBreaks(hash, s, steps) ==> |After(hash, s, steps).file.lines| == |s.file.lines| + Writes(steps)
    decreases |steps|
  {
    if steps != [] {
      StepKeepsChain(hash, s, steps[0]);
      assert [steps[0]][1..] == [];
      if Breaks(s, steps[0]) {
        SpoiltForever(hash, Next(hash, s, steps[0]), steps[1..]);
      } else {
        EveryInterleavingVerifies(hash, Next(hash, s, steps[0]), steps[1..]);
      }
    }
  }

  // ---- The log object ----

  class HashChainAuditLog {
    var lines: seq<Line>
    var open: bool
    const hash: Hash

    /** The log of a file that may already exist, in whatever state. */
    constructor (hash: Hash, file: File)
      ensures lines == file.lines && open == file.open && this.hash == hash
    {
      this.hash := hash;
      lines, open := file.lines, file.open;
    }

    method ReadLastHash() returns (last: Option<string>)
      ensures last == LastHash(lines)
    {
      var line := Blank;
      for n := 0 to |lines|
        invariant line.Blank? ==> LastHash(lines[..n]) == Some(GENESIS)
        invariant line.Garbage? ==> LastHash(lines[..n]) == None
        invariant line.Entry? ==> LastHash(lines[..n]) == Printed(line.eventHash)
      {
        assert lines[..n + 1][..n] == lines[..n];
        if lines[n] != Blank {
          line := lines[n];
        }
      }
      assert lines[..|lines|] == lines;
      return match line
        case Blank => Some(GENESIS)
        case Garbage => None
        case Entry(record, eventHash) => Printed(eventHash);
    }

    /** `content` is the event's other fields, already redacted; None when the last line is corrupt. */
    method Append(content: string) returns (entry: Option<Line>)
      modifies this
      ensures entry.None? <==> LastHash(old(lines)).None?
      ensures entry.None? ==> lines == old(lines) && open == old(open)
      ensures entry.Some? ==> entry.value == NextEntry(hash, LastHash(old(lines)).value, content)
      ensures entry.Some? ==> lines == Extended(File(old(lines), old(open)), entry.value) && !open
      ensures !old(open) ==> (Verification(hash, lines).Valid? <==> Verification(hash, old(lines)).Valid?)
    {
      var previous := ReadLastHash();
      if previous.None? {
        return None;
      }
      var record := Record(content, previous);
      var line := Entry(record, Text(hash(previous.value, record)));
      ghost var verifies := Verification(hash, lines).Valid?;
      if verifies {
        AppendKeepsChain(hash, lines, content);
      } else {
        NeverRepaired(hash, lines, [line]);
      }
      lines, open := Extended(File(lines, open), line), false;
      return Some(line);
    }

    method Verify() returns (r: Verdict)
      ensures r == Verification(hash, lines)
    {
      var previous, count := GENESIS, 0;
      while count < |lines|
        invariant count <= |lines|
        invariant Verification(hash, lines[..count]) == Valid(count, previous)
      {
        var line := lines[count];
        assert lines[..count + 1][..count] == lines[..count];
        assert lines[..count + 1] + lines[count + 1..] == lines;
        count := count + 1;
        if line.Blank? {
          continue;
        }
        if line.Garbage? {
          NeverRepaired(hash, lines[..count], lines[count..]);
          return Raised;
        }
        if line.record.previousHash != Some(previous) {
          NeverRepaired(hash, lines[..count], lines[count..]);
          return PreviousHashMismatch(count);
        }
        var expected := hash(previous, line.record);
        if line.eventHash != Text(expected) {
          NeverRepaired(hash, lines[..count], lines[count..]);
          return EventHashMismatch(count);
        }
        previous := expected;
      }
      assert lines[..count] == lines;
      return Valid(count, previous);
    }
  }
}
