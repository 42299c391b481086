/** The texts the patch scanner allows are exactly the printed lists of valid sections. */
module PatchGrammar {
  import opened Collections
  import opened PatchScanner

  datatype Section = Section(kind: Kind, raw: string, body: seq<string>)

  function HeaderOf(section: Section): string {
    (if section.kind == Add then ADD_FILE else UPDATE_FILE) + section.raw
  }

  function PrintSections(sections: seq<Section>): seq<string> {
    if sections == [] then []
    else [HeaderOf(sections[0])] + sections[0].body + PrintSections(sections[1..])
  }

  function Print(sections: seq<Section>): seq<string> {
    [BEGIN_PATCH] + PrintSections(sections) + [END_PATCH]
  }

  /**
   Added files are lines that start with a plus. Updated files open with a hunk and go on with hunks and
   context, added and removed lines; the end-of-file marker may only come last.
   */
  ghost predicate ValidBody(kind: Kind, body: seq<string>) {
    if kind == Add then forall i :: 0 <= i < |body| ==> StartsWith(body[i], "+")
    else
      && body != [] && IsHunk(body[0])
      && forall i :: 0 <= i < |body| ==> IsHunk(body[i]) || IsText(body[i]) || (body[i] == END_OF_FILE && i == |body| - 1)
  }

  ghost predicate ValidSection(host: Host, section: Section) {
    SafeTarget(host, section.kind, section.raw) && ValidBody(section.kind, section.body)
  }

  ghost predicate DistinctTargets(host: Host, sections: seq<Section>) {
    forall i, j :: 0 <= i < j < |sections| ==> host.target(sections[i].raw) != host.target(sections[j].raw)
  }

  ghost predicate ValidPatch(host: Host, sections: seq<Section>) {
    && 1 <= |sections| <= MAX_TARGETS
    && (forall i :: 0 <= i < |sections| ==> ValidSection(host, sections[i]))
    && DistinctTargets(host, sections)
  }

  // ----- lines ------------------------------------------------------------------------------------------

  lemma CharAt(line: string, prefix: string, k: nat)
    requires k < |prefix|
    ensures StartsWith(line, prefix) ==> |line| > k && line[k] == prefix[k]
  {
    if StartsWith(line, prefix) {
      assert line[..|prefix|][k] == prefix[k];
    }
  }

  /** The kinds of line exclude each other by their first or fifth character. */
  lemma HeadersAreNoBody(line: string)
    ensures IsHeader(line) ==> !IsHunk(line) && !IsText(line) && line != END_OF_FILE
    ensures line == END_OF_FILE ==> !IsHunk(line) && !IsText(line)
    ensures IsHunk(line) ==> !IsText(line)
    ensures StartsWith(line, "+") ==> !IsHeader(line)
    ensures !(StartsWith(line, ADD_FILE) && StartsWith(line, UPDATE_FILE))
  {
    CharAt(line, ADD_FILE, 0);
    CharAt(line, ADD_FILE, 4);
    CharAt(line, UPDATE_FILE, 0);
    CharAt(line, UPDATE_FILE, 4);
    CharAt(line, "@@ ", 0);
    CharAt(line, " ", 0);
    CharAt(line, "+", 0);
    CharAt(line, "-", 0);
    assert END_OF_FILE[0] == '*' && END_OF_FILE[4] == 'E' && ADD_FILE[4] == 'A' && UPDATE_FILE[4] == 'U';
  }

  lemma HeaderParses(section: Section)
    ensures IsHeader(HeaderOf(section)) && ParseHeader(HeaderOf(section)) == Some((section.kind, section.raw))
  {
    var line := HeaderOf(section);
    HeadersAreNoBody(line);
    if section.kind == Add {
      assert line[..|ADD_FILE|] == ADD_FILE && line[|ADD_FILE|..] == section.raw;
    } else {
      assert line[..|UPDATE_FILE|] == UPDATE_FILE && line[|UPDATE_FILE|..] == section.raw;
    }
  }

  lemma ParsedHeader(line: string)
    requires ParseHeader(line).Some?
    ensures var (kind, raw) := ParseHeader(line).value; line == HeaderOf(Section(kind, raw, []))
  {
  }

  // ----- section bodies -----------------------------------------------------------------------------------

  /** A body of which `chunks` hunks have been read already. */
  ghost predicate ValidTail(kind: Kind, body: seq<string>, chunks: nat) {
    if kind == Add then forall i :: 0 <= i < |body| ==> StartsWith(body[i], "+")
    else
      && (chunks == 0 ==> body != [] && IsHunk(body[0]))
      && forall i :: 0 <= i < |body| ==> IsHunk(body[i]) || IsText(body[i]) || (body[i] == END_OF_FILE && i == |body| - 1)
  }

  ghost predicate EndsAt(rest: seq<string>, n: nat) {
    n <= |rest| && (n == |rest| || IsHeader(rest[n]))
  }

  lemma TailStep(kind: Kind, rest: seq<string>, chunks: nat, n: nat)
    requires rest != [] && n < |rest| && EndsAt(rest, n + 1)
    requires LineFits(kind, rest, chunks) && !IsHeader(rest[0])
    requires ValidTail(kind, rest[1..][..n], ChunksAfter(kind, rest[0], chunks))
    ensures ValidTail(kind, rest[..n + 1], chunks)
  {
    var body, tail := rest[..n + 1], rest[1..][..n];
    assert forall i :: 1 <= i < |body| ==> body[i] == tail[i - 1];
    HeadersAreNoBody(rest[0]);
    if n > 0 {
      HeadersAreNoBody(rest[1]);
      assert tail[0] == rest[1];
    }
  }

  lemma {:induction false} TakenIsValid(kind: Kind, rest: seq<string>, chunks: nat)
    requires BodyLength(kind, rest, chunks).Some?
    ensures var n := BodyLength(kind, rest, chunks).value;
      EndsAt(rest, n) && ValidTail(kind, rest[..n], chunks)
    decreases |rest|
  {
    if !(rest == [] || IsHeader(rest[0])) {
      var after := ChunksAfter(kind, rest[0], chunks);
      TakenIsValid(kind, rest[1..], after);
      TailStep(kind, rest, chunks, BodyLength(kind, rest[1..], after).value);
    }
  }

  lemma {:induction false} ValidIsTaken(kind: Kind, body: seq<string>, after: seq<string>, chunks: nat)
    requires ValidTail(kind, body, chunks) && (after == [] || IsHeader(after[0]))
    ensures BodyLength(kind, body + after, chunks) == Some(|body|)
    decreases |body|
  {
    if body == [] {
      assert body + after == after;
    } else {
      var rest := body + after;
      assert rest[1..] == body[1..] + after;
      HeadersAreNoBody(body[0]);
      assert !IsHeader(rest[0]) && LineFits(kind, rest, chunks);
      ValidIsTaken(kind, body[1..], after, ChunksAfter(kind, body[0], chunks));
    }
  }

  // ----- sections -----------------------------------------------------------------------------------------

  /** These sections may follow when `seen` targets are taken. */
  ghost predicate ValidFrom(host: Host, sections: seq<Section>, seen: set<string>)
    decreases |sections|
  {
    sections == []
    || (&& |seen| < MAX_TARGETS
        && ValidSection(host, sections[0])
        && host.target(sections[0].raw) !in seen
        && ValidFrom(host, sections[1..], seen + {host.target(sections[0].raw)}))
  }

  lemma {:induction false} ValidFromIff(host: Host, sections: seq<Section>, seen: set<string>)
    ensures ValidFrom(host, sections, seen) <==>
      && (sections != [] ==> |seen| + |sections| <= MAX_TARGETS)
      && (forall i :: 0 <= i < |sections| ==> ValidSection(host, sections[i]))
      && (forall i :: 0 <= i < |sections| ==> host.target(sections[i].raw) !in seen)
      && DistinctTargets(host, sections)
    decreases |sections|
  {
    if sections != [] {
      var rest, target := sections[1..], host.target(sections[0].raw);
      ValidFromIff(host, rest, seen + {target});
      assert forall i :: 0 < i < |sections| ==> sections[i] == rest[i - 1];
      assert target !in seen ==> |seen + {target}| == |seen| + 1;
    }
  }

  /** What a scan allows can be read as a list of valid sections. */
  lemma {:induction false} AllowedHasSections(host: Host, rest: seq<string>, seen: set<string>)
    returns (sections: seq<Section>)
    requires ScanSections(host, rest, seen) == Allow
    ensures ValidFrom(host, sections, seen) && PrintSections(sections) == rest
    ensures seen == {} ==> sections != []
    decreases |rest|
  {
    if rest == [] {
      return [];
    }
    var section, after := AllowedSection(host, rest, seen);
    var more := AllowedHasSections(host, after, seen + {host.target(section.raw)});
    SectionFirst(host, section, more, seen);
    sections := [section] + more;
  }

  /** The first section of an allowed text, and the text after it. */
  lemma AllowedSection(host: Host, rest: seq<string>, seen: set<string>) returns (section: Section, after: seq<string>)
    requires rest != [] && ScanSections(host, rest, seen) == Allow
    ensures |seen| < MAX_TARGETS && ValidSection(host, section) && host.target(section.raw) !in seen
    ensures rest == [HeaderOf(section)] + section.body + after
    ensures ScanSections(host, after, seen + {host.target(section.raw)}) == Allow
  {
    var (kind, raw) := ParseHeader(rest[0]).value;
    ParsedHeader(rest[0]);
    TakenIsValid(kind, rest[1..], 0);
    var n := BodyLength(kind, rest[1..], 0).value;
    section, after := Section(kind, raw, rest[1..][..n]), rest[1..][n..];
  }

  lemma SectionFirst(host: Host, section: Section, more: seq<Section>, seen: set<string>)
    ensures PrintSections([section] + more) == [HeaderOf(section)] + section.body + PrintSections(more)
    ensures
      (&& |seen| < MAX_TARGETS
       && ValidSection(host, section)
       && host.target(section.raw) !in seen
       && ValidFrom(host, more, seen + {host.target(section.raw)})) ==> ValidFrom(host, [section] + more, seen)
  {
    assert ([section] + more)[1..] == more;
  }

  /** Printing valid sections and scanning the text is allowed. */
  lemma {:induction false} PrintedIsAllowed(host: Host, sections: seq<Section>, seen: set<string>)
    requires ValidFrom(host, sections, seen) && (seen == {} ==> sections != [])
    ensures ScanSections(host, PrintSections(sections), seen) == Allow
    decreases |sections|
  {
    if sections != [] {
      PrintStartsWithHeader(sections[1..]);
      ScanOneSection(host, sections[0], PrintSections(sections[1..]), seen);
      PrintedIsAllowed(host, sections[1..], seen + {host.target(sections[0].raw)});
    }
  }

  lemma PrintStartsWithHeader(sections: seq<Section>)
    ensures PrintSections(sections) == [] || IsHeader(PrintSections(sections)[0])
  {
    if sections != [] {
      HeaderParses(sections[0]);
    }
  }

  lemma AllowedPrints(host: Host, bytes: nat, lines: seq<string>) returns (sections: seq<Section>)
    requires Decide(host, bytes, lines) == Allow
    ensures ValidPatch(host, sections) && lines == Print(sections)
  {
    AllowedInside(host, bytes, lines);
    sections := AllowedHasSections(host, lines[1..|lines| - 1], {});
    ValidFromIff(host, sections, {});
  }

  lemma AllowedInside(host: Host, bytes: nat, lines: seq<string>)
    requires Decide(host, bytes, lines) == Allow
    ensures |lines| >= 3 && lines == [BEGIN_PATCH] + lines[1..|lines| - 1] + [END_PATCH]
    ensures ScanSections(host, lines[1..|lines| - 1], {}) == Allow
  {
  }

  /** Any valid list of sections, printed, is allowed when it is short enough. */
  lemma ValidIsAllowed(host: Host, bytes: nat, sections: seq<Section>)
    requires ValidPatch(host, sections) && bytes <= MAX_INPUT_BYTES
    ensures Decide(host, bytes, Print(sections)) == Allow
  {
    var lines := Print(sections);
    ValidFromIff(host, sections, {});
    PrintedIsAllowed(host, sections, {});
    assert lines[1..|lines| - 1] == PrintSections(sections);
    assert PrintSections(sections)[0] == HeaderOf(sections[0]);
  }

  /** The scanner allows a text within the limit exactly when it prints a valid list of sections. */
  lemma AllowedIffPrinted(host: Host, bytes: nat, lines: seq<string>)
    ensures Decide(host, bytes, lines) == Allow <==>
      bytes <= MAX_INPUT_BYTES && exists sections :: ValidPatch(host, sections) && lines == Print(sections)
  {
    if Decide(host, bytes, lines) == Allow {
      var sections := AllowedPrints(host, bytes, lines);
    }
    forall sections | ValidPatch(host, sections) && lines == Print(sections) && bytes <= MAX_INPUT_BYTES
      ensures Decide(host, bytes, lines) == Allow
    {
      ValidIsAllowed(host, bytes, sections);
    }
  }

  // ----- texts that reach outside ---------------------------------------------------------------------------

  /** After valid sections the next header names a target that is not safe; what follows it does not matter. */
  ghost predicate Escapes(host: Host, lines: seq<string>, sections: seq<Section>, escape: Section, tail: seq<string>) {
    && lines == [BEGIN_PATCH] + (PrintSections(sections) + ([HeaderOf(escape)] + tail)) + [END_PATCH]
    && |sections| <= MAX_TARGETS && DistinctTargets(host, sections)
    && (forall i :: 0 <= i < |sections| ==> ValidSection(host, sections[i]))
    && !SafeTarget(host, escape.kind, escape.raw)
  }

  /** Reading one valid section. */
  lemma ScanOneSection(host: Host, section: Section, after: seq<string>, seen: set<string>)
    requires ValidSection(host, section) && |seen| < MAX_TARGETS && host.target(section.raw) !in seen
    requires after == [] || IsHeader(after[0])
    ensures ScanSections(host, [HeaderOf(section)] + section.body + after, seen)
         == ScanSections(host, after, seen + {host.target(section.raw)})
  {
    CutFirst(HeaderOf(section), section.body, after);
    HeaderParses(section);
    ValidIsTaken(section.kind, section.body, after, 0);
  }

  lemma CutFirst<T>(head: T, body: seq<T>, after: seq<T>)
    ensures var rest := [head] + body + after;
      rest != [] && rest[0] == head && rest[1..] == body + after && rest[1..][|body|..] == after
  {
  }

  lemma Regroup<T>(a: seq<T>, b: seq<T>, c: seq<T>)
    ensures a + b + c == a + (b + c)
  {
  }

  lemma PrintFirst(sections: seq<Section>, end: seq<string>)
    requires sections != []
    ensures PrintSections(sections) + end
         == [HeaderOf(sections[0])] + sections[0].body + (PrintSections(sections[1..]) + end)
  {
    Regroup([HeaderOf(sections[0])] + sections[0].body, PrintSections(sections[1..]), end);
  }

  /** Reading on behind valid sections. */
  lemma {:induction false} ScanReadsOn(
    host: Host, sections: seq<Section>, escape: Section, tail: seq<string>, seen: set<string>)
    requires ValidFrom(host, sections, seen) && !SafeTarget(host, escape.kind, escape.raw)
    ensures ScanSections(host, PrintSections(sections) + ([HeaderOf(escape)] + tail), seen) == Outside
    decreases |sections|
  {
    var end := [HeaderOf(escape)] + tail;
    HeaderParses(escape);
    if sections == [] {
      assert PrintSections(sections) + end == end;
    } else {
      PrintFirst(sections, end);
      PrintStartsWithHeader(sections[1..]);
      ScanOneSection(host, sections[0], PrintSections(sections[1..]) + end, seen);
      ScanReadsOn(host, sections[1..], escape, tail, seen + {host.target(sections[0].raw)});
    }
  }

  /** The first section of a text that reaches outside only later, and the text after it. */
  lemma OutsideSection(host: Host, rest: seq<string>, seen: set<string>) returns (section: Section, after: seq<string>)
    requires rest != [] && ScanSections(host, rest, seen) == Outside
    requires ParseHeader(rest[0]).Some? && SafeTarget(host, ParseHeader(rest[0]).value.0, ParseHeader(rest[0]).value.1)
    ensures |seen| < MAX_TARGETS && ValidSection(host, section) && host.target(section.raw) !in seen
    ensures rest == [HeaderOf(section)] + section.body + after
    ensures ScanSections(host, after, seen + {host.target(section.raw)}) == Outside
  {
    var (kind, raw) := ParseHeader(rest[0]).value;
    ParsedHeader(rest[0]);
    TakenIsValid(kind, rest[1..], 0);
    var n := BodyLength(kind, rest[1..], 0).value;
    section, after := Section(kind, raw, rest[1..][..n]), rest[1..][n..];
  }

  /** What a scan finds outside has valid sections before the target that escapes. */
  lemma {:induction false} OutsideHasSections(host: Host, rest: seq<string>, seen: set<string>)
    returns (sections: seq<Section>, escape: Section, tail: seq<string>)
    requires ScanSections(host, rest, seen) == Outside
    ensures ValidFrom(host, sections, seen) && !SafeTarget(host, escape.kind, escape.raw)
    ensures rest == PrintSections(sections) + ([HeaderOf(escape)] + tail)
    decreases |rest|
  {
    var (kind, raw) := ParseHeader(rest[0]).value;
    if !SafeTarget(host, kind, raw) {
      ParsedHeader(rest[0]);
      sections, escape, tail := [], Section(kind, raw, []), rest[1..];
      assert PrintSections(sections) + ([HeaderOf(escape)] + tail) == rest;
    } else {
      var section, after := OutsideSection(host, rest, seen);
      var more;
      more, escape, tail := OutsideHasSections(host, after, seen + {host.target(section.raw)});
      SectionFirst(host, section, more, seen);
      sections := [section] + more;
      PrintFirst(sections, [HeaderOf(escape)] + tail);
      assert sections[1..] == more;
    }
  }

  /**
   A text within the limit is refused as outside exactly when valid sections are followed by a header whose target is
   not safe; every other text that is not allowed is refused as a patch.
   */
  lemma OutsideIffEscapes(host: Host, bytes: nat, lines: seq<string>)
    ensures Decide(host, bytes, lines) == Outside <==>
      bytes <= MAX_INPUT_BYTES && exists sections, escape, tail :: Escapes(host, lines, sections, escape, tail)
  {
    if Decide(host, bytes, lines) == Outside {
      var inner := lines[1..|lines| - 1];
      var sections, escape, tail := OutsideHasSections(host, inner, {});
      ValidFromIff(host, sections, {});
      assert lines == [BEGIN_PATCH] + inner + [END_PATCH];
      assert Escapes(host, lines, sections, escape, tail);
    }
    forall sections, escape, tail | Escapes(host, lines, sections, escape, tail) && bytes <= MAX_INPUT_BYTES
      ensures Decide(host, bytes, lines) == Outside
    {
      ValidFromIff(host, sections, {});
      ScanReadsOn(host, sections, escape, tail, {});
      assert lines[1..|lines| - 1] == PrintSections(sections) + ([HeaderOf(escape)] + tail);
    }
  }

  lemma SplitAlike(a: seq<string>, x: seq<string>, b: seq<string>, y: seq<string>)
    requires a + x == b + y && |a| == |b|
    ensures a == b && x == y
  {
    assert a == (a + x)[..|a|] && b == (b + y)[..|b|];
    assert x == (a + x)[|a|..] && y == (b + y)[|b|..];
  }

  /** A text reads as one list of sections only. */
  lemma {:induction false} OneReading(host: Host, a: seq<Section>, b: seq<Section>)
    requires forall i :: 0 <= i < |a| ==> ValidSection(host, a[i])
    requires forall i :: 0 <= i < |b| ==> ValidSection(host, b[i])
    requires PrintSections(a) == PrintSections(b)
    ensures a == b
    decreases |a|
  {
    if a != [] && b != [] {
      var lines := PrintSections(a);
      HeaderParses(a[0]);
      HeaderParses(b[0]);
      assert lines[0] == HeaderOf(a[0]) == HeaderOf(b[0]);
      assert a[0].kind == b[0].kind && a[0].raw == b[0].raw;
      var afterA, afterB := PrintSections(a[1..]), PrintSections(b[1..]);
      assert lines[1..] == a[0].body + afterA == b[0].body + afterB;
      PrintStartsWithHeader(a[1..]);
      PrintStartsWithHeader(b[1..]);
      ValidIsTaken(a[0].kind, a[0].body, afterA, 0);
      ValidIsTaken(b[0].kind, b[0].body, afterB, 0);
      SplitAlike(a[0].body, afterA, b[0].body, afterB);
      OneReading(host, a[1..], b[1..]);
      assert a == [a[0]] + a[1..] && b == [b[0]] + b[1..];
    } else {
      assert a != [] ==> PrintSections(a) != [];
      assert b != [] ==> PrintSections(b) != [];
    }
  }
}
