/**
 The guard's patch scanner (src/openworkproof/agent_guard.py:182-222), over a text already split into lines,
 and the grammar it decides.
 */
module PatchScanner {
  import opened Collections

  datatype GuardDecision = Allow | Outside | Patch

  /** What the scanner asks of its surroundings: white space, safe paths, and the file a path names. */
  datatype Host = Host(isSpace: char -> bool, safePath: (string, bool) -> bool, target: string -> string)

  datatype Kind = Add | Update

  const MAX_INPUT_BYTES: nat := 1024 * 1024
  const MAX_TARGETS: nat := 64

  const BEGIN_PATCH := "*** Begin Patch"
  const END_PATCH := "*** End Patch"
  const ADD_FILE := "*** Add File: "
  const UPDATE_FILE := "*** Update File: "
  const END_OF_FILE := "*** End of File"

  predicate StartsWith(line: string, prefix: string) {
    |prefix| <= |line| && line[..|prefix|] == prefix
  }

  predicate IsHeader(line: string) {
    StartsWith(line, ADD_FILE) || StartsWith(line, UPDATE_FILE)
  }

  predicate IsHunk(line: string) {
    line == "@@" || StartsWith(line, "@@ ")
  }

  predicate IsText(line: string) {
    StartsWith(line, " ") || StartsWith(line, "+") || StartsWith(line, "-")
  }

  function ParseHeader(line: string): Option<(Kind, string)> {
    if StartsWith(line, ADD_FILE) then Some((Add, line[|ADD_FILE|..]))
    else if StartsWith(line, UPDATE_FILE) then Some((Update, line[|UPDATE_FILE|..]))
    else None
  }

  predicate Trimmed(host: Host, raw: string) {
    raw == "" || (!host.isSpace(raw[0]) && !host.isSpace(raw[|raw| - 1]))
  }

  predicate SafeTarget(host: Host, kind: Kind, raw: string) {
    Trimmed(host, raw) && host.safePath(raw, kind == Update)
  }

  // ----- the scan, as a function of the lines still to come ----------------------------------------

  /** Whether the first of these lines may stand in a section of which `chunks` hunks are read. */
  predicate LineFits(kind: Kind, rest: seq<string>, chunks: nat)
    requires rest != []
  {
    var line := rest[0];
    if kind == Add then StartsWith(line, "+")
    else
      || IsHunk(line)
      || (if line == END_OF_FILE then |rest| == 1 || IsHeader(rest[1]) else chunks > 0 && IsText(line))
  }

  function ChunksAfter(kind: Kind, line: string, chunks: nat): nat {
    if kind == Update && IsHunk(line) then chunks + 1 else chunks
  }

  /** How many lines the section takes, if it is one. */
  function BodyLength(kind: Kind, rest: seq<string>, chunks: nat): (taken: Option<nat>)
    ensures taken.Some? ==> taken.value <= |rest|
    decreases |rest|
  {
    if rest == [] || IsHeader(rest[0]) then
      if kind == Update && chunks == 0 then None else Some(0)
    else if !LineFits(kind, rest, chunks) then None
    else
      match BodyLength(kind, rest[1..], ChunksAfter(kind, rest[0], chunks))
      case None => None
      case Some(taken) => Some(taken + 1)
  }

  function ScanSections(host: Host, rest: seq<string>, seen: set<string>): GuardDecision
    decreases |rest|, 0
  {
    if rest == [] then if seen != {} then Allow else Patch
    else AfterHeader(host, ParseHeader(rest[0]), rest[1..], seen)
  }

  function AfterHeader(host: Host, header: Option<(Kind, string)>, rest: seq<string>, seen: set<string>): GuardDecision
    decreases |rest|, 1
  {
    match header
    case None => Patch
    case Some((kind, raw)) =>
      if !SafeTarget(host, kind, raw) then Outside
      else if host.target(raw) in seen || |seen| >= MAX_TARGETS then Patch
      else
        match BodyLength(kind, rest, 0)
        case None => Patch
        case Some(taken) => ScanSections(host, rest[taken..], seen + {host.target(raw)})
  }

  predicate Enveloped(lines: seq<string>) {
    |lines| >= 3 && lines[0] == BEGIN_PATCH && lines[|lines| - 1] == END_PATCH
  }

  function Decide(host: Host, bytes: nat, lines: seq<string>): GuardDecision {
    if bytes > MAX_INPUT_BYTES || !Enveloped(lines) then Patch
    else ScanSections(host, lines[1..|lines| - 1], {})
  }

  // ----- the two loops ---------------------------------------------------------------------------------

  /** The inner loop: from the line after a header to the next header or the end. */
  method ScanBody(kind: Kind, lines: seq<string>, start: nat) returns (ok: bool, index: nat)
    requires 1 <= start <= |lines| - 1
    ensures start <= index <= |lines| - 1
    ensures BodyLength(kind, lines[start..|lines| - 1], 0) == if ok then Some(index - start) else None
  {
    var end := |lines| - 1;
    var chunks := 0;
    index := start;
    ghost var left := BodyLength(kind, lines[start..end], 0);
    ghost var total := left;
    while index < end && !IsHeader(lines[index])
      invariant start <= index <= end
      invariant left == BodyLength(kind, lines[index..end], chunks) && total == Plus(left, index - start)
    {
      var fits;
      fits, chunks := ScanLine(kind, lines, index, chunks);
      if !fits {
        return false, index;
      }
      index := index + 1;
      left := BodyLength(kind, lines[index..end], chunks);
    }
    BodyEnds(kind, lines, index, chunks);
    ok := !(kind == Update && chunks == 0);
  }

  lemma BodyEnds(kind: Kind, lines: seq<string>, index: nat, chunks: nat)
    requires index < |lines| && (index == |lines| - 1 || IsHeader(lines[index]))
    ensures BodyLength(kind, lines[index..|lines| - 1], chunks) == if kind == Update && chunks == 0 then None else Some(0)
  {
    assert index < |lines| - 1 ==> lines[index..|lines| - 1][0] == lines[index];
  }

  /** One line of it. */
  method ScanLine(kind: Kind, lines: seq<string>, index: nat, chunks: nat) returns (fits: bool, after: nat)
    requires index < |lines| - 1 && !IsHeader(lines[index])
    ensures var end := |lines| - 1;
      BodyLength(kind, lines[index..end], chunks)
      == if fits then Plus(BodyLength(kind, lines[index + 1..end], after), 1) else None
  {
    var line := lines[index];
    fits, after := true, chunks;
    if kind == Add {
      fits := StartsWith(line, "+");
    } else if IsHunk(line) {
      after := chunks + 1;
    } else if line == END_OF_FILE {
      fits := index + 1 >= |lines| - 1 || IsHeader(lines[index + 1]);
    } else {
      fits := chunks > 0 && IsText(line);
    }
    ghost var rest := lines[index..|lines| - 1];
    assert rest[0] == line && rest[1..] == lines[index + 1..|lines| - 1];
    assert fits == LineFits(kind, rest, chunks);
  }

  function Plus(taken: Option<nat>, more: nat): Option<nat> {
    if taken.None? then None else Some(taken.value + more)
  }

  /** One round of the outer loop: the section whose header is at `index`, or the refusal it earns. */
  method ScanSection(host: Host, lines: seq<string>, index: nat, seen: set<string>)
    returns (decision: GuardDecision, target: string, after: nat)
    requires 1 <= index < |lines| - 1
    ensures index < after <= |lines| - 1
    ensures var end := |lines| - 1;
      ScanSections(host, lines[index..end], seen)
      == if decision == Allow then ScanSections(host, lines[after..end], seen + {target}) else decision
  {
    var header := lines[index];
    SectionStarts(host, lines, index, seen);
    target, after := "", index + 1;
    var kind, raw;
    if StartsWith(header, ADD_FILE) {
      kind, raw := Add, header[|ADD_FILE|..];
    } else if StartsWith(header, UPDATE_FILE) {
      kind, raw := Update, header[|UPDATE_FILE|..];
    } else {
      return Patch, target, after;
    }
    if !Trimmed(host, raw) || !host.safePath(raw, kind == Update) {
      return Outside, target, after;
    }
    target := host.target(raw);
    if target in seen || |seen| >= MAX_TARGETS {
      return Patch, target, after;
    }
    var ok;
    ok, after := ScanBody(kind, lines, index + 1);
    if !ok {
      return Patch, target, after;
    }
    assert lines[index + 1..|lines| - 1][after - (index + 1)..] == lines[after..|lines| - 1];
    return Allow, target, after;
  }

  /** The scan of the lines from a header on, in terms of the lines after it. */
  lemma SectionStarts(host: Host, lines: seq<string>, index: nat, seen: set<string>)
    requires index < |lines| - 1
    ensures ScanSections(host, lines[index..|lines| - 1], seen)
         == AfterHeader(host, ParseHeader(lines[index]), lines[index + 1..|lines| - 1], seen)
  {
    assert lines[index..|lines| - 1][1..] == lines[index + 1..|lines| - 1];
  }

  /** The outer loop. */
  method PatchDecision(host: Host, bytes: nat, lines: seq<string>) returns (decision: GuardDecision)
    ensures decision == Decide(host, bytes, lines)
  {
    if bytes > MAX_INPUT_BYTES {
      return Patch;
    }
    if |lines| < 3 || lines[0] != BEGIN_PATCH || lines[|lines| - 1] != END_PATCH {
      return Patch;
    }
    var end := |lines| - 1;
    var index: nat, seen: set<string> := 1, {};
    ghost var expected := ScanSections(host, lines[1..end], {});
    while index < end
      invariant 1 <= index <= end
      invariant expected == ScanSections(host, lines[index..end], seen)
      decreases end - index
    {
      var target, after;
      decision, target, after := ScanSection(host, lines, index, seen);
      if decision != Allow {
        return;
      }
      index, seen := after, seen + {target};
    }
    decision := if seen != {} then Allow else Patch;
  }
}
