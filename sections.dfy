/** `parse_sections`: finds the `[Header]` blocks of a document and their bodies,
    and for `V4+ Styles` and `Events` appends the fields of the body's first line
    (its `Format:` declaration), each followed by a newline. */
module Sections {
  import opened Errors
  import opened Types
  import opened FormatLine

  /** The header scan: from `j`, the first index that holds `]`. Running off the end
      is an out-of-range read. */
  function HeaderEnd(r: string, j: nat): (e: Result<nat>)
    decreases |r| - j
    ensures e.Ok? ==> j <= e.value < |r| && r[e.value] == ']'
    ensures e.Err? ==> e.error == StructureInvalid
  {
    if j >= |r| then Err(StructureInvalid)
    else if r[j] == ']' then Ok(j)
    else HeaderEnd(r, j + 1)
  }

  /** The header scan finds the first `]` from `j`, and fails only when there is none. */
  lemma {:induction false} HeaderEndFirst(r: string, j: nat)
    decreases |r| - j
    ensures HeaderEnd(r, j).Ok? ==> forall k | j <= k < HeaderEnd(r, j).value :: r[k] != ']'
    ensures HeaderEnd(r, j).Err? ==> forall k | j <= k < |r| :: r[k] != ']'
  {
    if j < |r| && r[j] != ']' {
      HeaderEndFirst(r, j + 1);
    }
  }

  /** A blank line starts at `k`: two newlines in a row. */
  predicate BlankAt(r: string, k: nat) {
    k + 1 < |r| && r[k] == '\n' && r[k + 1] == '\n'
  }

  /** Where the body scan stops: the exclusive end of the body and the index the
      outer scan resumes at. */
  datatype BodySpan = BodySpan(end: nat, next: nat)

  /** The body scan from `i`: it stops at the first blank line (the body ends before
      it and scanning resumes at its second newline), or, once fewer than three bytes
      remain from the scan position, ends the body one byte before the end. */
  function BodyEnd(r: string, i: nat): (b: BodySpan)
    requires |r| > 0
    decreases |r| - i
    ensures i <= b.next && (i < |r| ==> b.next < |r|)
    ensures b.end == |r| - 1 ==>
              && b.next + 2 >= |r|
              && (b.next == i || b.next + 2 == |r|)
    ensures b.end != |r| - 1 ==>
              && b.next == b.end + 1
              && i <= b.end && b.end + 2 < |r|
              && BlankAt(r, b.end)
  {
    if i + 2 >= |r| then BodySpan(|r| - 1, i)
    else if r[i] == '\n' && r[i + 1] == '\n' then BodySpan(i, i + 1)
    else BodyEnd(r, i + 1)
  }

  /** The body scan stops at the first blank line from `i`. */
  lemma {:induction false} BodyEndFirst(r: string, i: nat)
    requires |r| > 0
    decreases |r| - i
    ensures BodyEnd(r, i).end == |r| - 1 ==> forall k | i <= k < BodyEnd(r, i).next :: !BlankAt(r, k)
    ensures BodyEnd(r, i).end != |r| - 1 ==> forall k | i <= k < BodyEnd(r, i).end :: !BlankAt(r, k)
  {
    if i + 2 < |r| && !(r[i] == '\n' && r[i + 1] == '\n') {
      BodyEndFirst(r, i + 1);
    }
  }

  /** The scan for the end of the body's first line, from `i`: the first newline.
      Running off the end is an out-of-range read. */
  function LineEnd(body: string, i: nat): (e: Result<nat>)
    decreases |body| - i
    ensures e.Ok? ==> i <= e.value < |body| && body[e.value] == '\n'
    ensures e.Ok? ==> forall k | i <= k < e.value :: body[k] != '\n'
    ensures e.Err? ==> e.error == StructureInvalid && forall k | i <= k < |body| :: body[k] != '\n'
  {
    if i >= |body| then Err(StructureInvalid)
    else if body[i] == '\n' then Ok(i)
    else LineEnd(body, i + 1)
  }

  /** The text `parse_sections` builds from a list of fields: each followed by a newline. */
  function Lines(fields: seq<string>): string
  {
    if fields == [] then [] else Lines(fields[..|fields| - 1]) + fields[|fields| - 1] + "\n"
  }

  /** Emitting two lists of fields one after the other is emitting both. */
  lemma {:induction false} LinesAppend(a: seq<string>, b: seq<string>)
    ensures Lines(a + b) == Lines(a) + Lines(b)
    decreases |b|
  {
    if b == [] {
      assert a + b == a;
    } else {
      var c := a + b;
      var b' := b[..|b| - 1];
      var x := b[|b| - 1];
      assert c[..|c| - 1] == a + b';
      assert c[|c| - 1] == x;
      assert Lines(c) == Lines(a + b') + x + "\n";
      LinesAppend(a, b');
      assert Lines(b) == Lines(b') + x + "\n";
    }
  }

  /** Which section a header names (the arms of the match on the header bytes). */
  function HeaderSection(h: string): (sec: Section)
    ensures sec == ScriptInfo <==> h == "Script Info"
    ensures sec == V4PlusStyles <==> h == "V4+ Styles"
    ensures sec == Fonts <==> h == "Fonts"
    ensures sec == Events <==> h == "Events"
  {
    if h == "Script Info" then ScriptInfo
    else if h == "V4+ Styles" then V4PlusStyles
    else if h == "Fonts" then Fonts
    else if h == "Events" then Events
    else Section.None
  }

  /** The `V4+ Styles` and `Events` arms: the fields `parse_format` finds in the body's
      first line, each followed by a newline. A body without a newline is read past its end. */
  function DeclaredFields(body: string): (out: Result<string>)
    ensures out.Ok? ==>
              exists e :: 0 <= e < |body| && body[e] == '\n' && '\n' !in body[..e]
                          && FormatFields(body[..e]).Ok?
                          && out.value == Lines(FormatFields(body[..e]).value)
  {
    var e :- LineEnd(body, 0);
    var fields :- FormatFields(body[..e]);
    Ok(Lines(fields))
  }

  /** What one section contributes: the declared fields for `V4+ Styles` and `Events`,
      nothing for any other header (`Script Info`, `Fonts`, the legacy `V4 Styles`, ...). */
  function SectionOutput(h: string, body: string): (out: Result<string>)
    ensures h != "V4+ Styles" && h != "Events" ==> out == Ok([])
    ensures h == "V4+ Styles" || h == "Events" ==> out == DeclaredFields(body)
  {
    match HeaderSection(h)
    case V4PlusStyles | Events => DeclaredFields(body)
    case _ => Ok([])
  }

  /** What a section contributes, given its header and body. */
  type SectionFn = (string, string) -> Result<string>

  /** The outer loop of `parse_sections` from index `i`, with `out` what each section
      contributes (`SectionOutput` in `parse_sections` itself). */
  function SectionsFrom(r: string, i: nat, out: SectionFn): Result<string>
    requires |r| > 0 && i <= |r|
    decreases |r| - i
  {
    if i >= |r| - 1 then Ok([])
    else if r[i] != '[' then SectionsFrom(r, i + 1, out)
    else
      var ed :- HeaderEnd(r, i + 1);
      var st := ed + 2;
      var b := BodyEnd(r, st);
      if st > b.end then Err(StructureInvalid)
      else
        var text :- out(r[i + 1..ed], r[st..b.end]);
        var rest :- SectionsFrom(r, b.next, out);
        Ok(text + rest)
  }

  /** What `parse_sections` returns for document `r`, or the failure it panics with
      (`r.len() - 1` underflows on an empty document). */
  function Parse(r: string): Result<string>
  {
    if |r| == 0 then Err(StructureInvalid) else SectionsFrom(r, 0, SectionOutput)
  }

  /** Text without a `[` before its last byte contributes nothing. */
  lemma {:induction false} SectionsFromNoBracket(r: string, i: nat, out: SectionFn)
    requires |r| > 0 && i <= |r|
    requires forall k | i <= k < |r| - 1 :: r[k] != '['
    ensures SectionsFrom(r, i, out) == Ok([])
    decreases |r| - i
  {
    if i < |r| - 1 {
      SectionsFromNoBracket(r, i + 1, out);
    }
  }

  /** A non-empty document with no section header yields empty text. */
  lemma ParseNoSections(r: string)
    requires |r| > 0 && forall k | 0 <= k < |r| - 1 :: r[k] != '['
    ensures Parse(r) == Ok([])
  {
    SectionsFromNoBracket(r, 0, SectionOutput);
  }

  /** A section as written in a document: `[header]`, a newline, the body, a blank line. */
  datatype SectionText = SectionText(header: string, body: string)

  /** A section whose header has no `]` and whose body has at least two lines, no blank
      line and no trailing newline. */
  predicate WellFormed(s: SectionText) {
    && ']' !in s.header
    && s.body != []
    && '\n' in s.body
    && s.body[|s.body| - 1] != '\n'
    && forall k | 0 <= k < |s.body| - 1 :: !(s.body[k] == '\n' && s.body[k + 1] == '\n')
  }

  function Render(s: SectionText): string {
    "[" + s.header + "]\n" + s.body + "\n\n"
  }

  /** The sections one after the other. */
  function Document(secs: seq<SectionText>): string {
    if secs == [] then [] else Render(secs[0]) + Document(secs[1..])
  }

  /** What the sections contribute, in document order; the first failure wins. */
  function Outputs(secs: seq<SectionText>): Result<string> {
    if secs == [] then Ok([])
    else
      var out :- SectionOutput(secs[0].header, secs[0].body);
      var rest :- Outputs(secs[1..]);
      Ok(out + rest)
  }

  /** A body that has a newline yields the same output with a newline appended. */
  lemma SectionOutputTrailingNewline(h: string, body: string)
    requires '\n' in body
    ensures SectionOutput(h, body + "\n") == SectionOutput(h, body)
  {
    var b' := body + "\n";
    var e := LineEnd(body, 0);
    var k :| 0 <= k < |body| && body[k] == '\n';
    assert e.Ok?;
    assert forall j | 0 <= j < |body| :: b'[j] == body[j];
    var e' := LineEnd(b', 0);
    assert e'.Ok? && e'.value <= e.value;
    assert e'.value == e.value;
    assert b'[..e.value] == body[..e.value];
  }

  /** The positions of a rendered section inside a document. */
  lemma RenderAt(r: string, off: nat, s: SectionText)
    requires off + |Render(s)| <= |r| && r[off..off + |Render(s)|] == Render(s)
    ensures var st := off + |s.header| + 3;
            && r[off] == '['
            && r[off + 1 + |s.header|] == ']'
            && (forall k | off + 1 <= k < off + 1 + |s.header| :: r[k] == s.header[k - off - 1])
            && (forall k | st <= k < st + |s.body| :: r[k] == s.body[k - st])
            && r[st + |s.body|] == '\n' && r[st + |s.body| + 1] == '\n'
            && st + |s.body| + 2 == off + |Render(s)|
            && r[st..st + |s.body|] == s.body
  {
    var R := Render(s);
    var st := off + |s.header| + 3;
    assert forall k | off <= k < off + |R| :: r[k] == R[k - off];
    assert R[0] == '[' && R[1 + |s.header|] == ']';
    assert forall k | 0 <= k < |s.header| :: R[1 + k] == s.header[k];
    assert forall k | 0 <= k < |s.body| :: R[|s.header| + 3 + k] == s.body[k];
    assert R[|s.header| + 3 + |s.body|] == '\n' && R[|s.header| + 4 + |s.body|] == '\n';
  }

  /** The header scan of a rendered section stops at its `]`. */
  lemma HeaderOfRendered(r: string, off: nat, s: SectionText)
    requires WellFormed(s)
    requires off + |Render(s)| <= |r| && r[off..off + |Render(s)|] == Render(s)
    ensures HeaderEnd(r, off + 1) == Ok(off + 1 + |s.header|)
    ensures r[off + 1..off + 1 + |s.header|] == s.header
  {
    RenderAt(r, off, s);
    var h := s.header;
    forall j | off + 1 <= j < off + 1 + |h| ensures r[j] != ']' {
      assert r[j] == h[j - off - 1];
      assert h[j - off - 1] in h;
    }
    HeaderEndFirst(r, off + 1);
  }

  /** The body scan from `st` meets no blank line before the one at `k`: it stops
      there, or, when that blank line closes the document, ends one byte early. */
  lemma {:induction false} BodyEndAt(r: string, st: nat, k: nat)
    requires st <= k && BlankAt(r, k)
    requires forall j | st <= j < k :: !BlankAt(r, j)
    decreases k - st
    ensures BodyEnd(r, st) == if k + 2 == |r| then BodySpan(|r| - 1, k) else BodySpan(k, k + 1)
  {
    if st < k {
      assert !BlankAt(r, st);
      BodyEndAt(r, st + 1, k);
    }
  }

  /** A body with no blank line and no final newline, followed by a blank line: the
      body scan stops at that blank line. */
  lemma BodyScan(r: string, st: nat, body: string)
    requires body != [] && body[|body| - 1] != '\n'
    requires forall k | 0 <= k < |body| - 1 :: !(body[k] == '\n' && body[k + 1] == '\n')
    requires st + |body| + 2 <= |r| && r[st..st + |body|] == body
    requires r[st + |body|] == '\n' && r[st + |body| + 1] == '\n'
    ensures var k := st + |body|;
            BodyEnd(r, st) == if k + 2 == |r| then BodySpan(|r| - 1, k) else BodySpan(k, k + 1)
  {
    var k := st + |body|;
    forall j | st <= j < k ensures !BlankAt(r, j) {
      if j + 1 < k {
        assert r[j] == body[j - st] && r[j + 1] == body[j + 1 - st];
      } else {
        assert r[j] == body[|body| - 1];
      }
    }
    BodyEndAt(r, st, k);
  }

  /** The body scan of a rendered section stops at its closing blank line, which it
      detects only when more text follows. */
  lemma BodyOfRendered(r: string, off: nat, s: SectionText)
    requires WellFormed(s)
    requires off + |Render(s)| <= |r| && r[off..off + |Render(s)|] == Render(s)
    ensures var st := off + |s.header| + 3;
            var k := st + |s.body|;
            BodyEnd(r, st) == if k + 2 == |r| then BodySpan(|r| - 1, k) else BodySpan(k, k + 1)
  {
    Landmarks(r, off, s);
    BodyScan(r, off + |s.header| + 3, s.body);
  }

  /** Both parts succeed, and their texts are joined; otherwise the first failure. */
  function Concat(a: Result<string>, b: Result<string>): Result<string> {
    var x :- a;
    var y :- b;
    Ok(x + y)
  }

  /** The landmarks of a rendered section inside a document: the part of `RenderAt`
      without its quantified facts, so that the proofs that need only these positions
      do not carry those quantifiers. */
  lemma Landmarks(r: string, off: nat, s: SectionText)
    requires off + |Render(s)| <= |r| && r[off..off + |Render(s)|] == Render(s)
    ensures var st := off + |s.header| + 3;
            && r[off] == '['
            && r[st + |s.body|] == '\n' && r[st + |s.body| + 1] == '\n'
            && st + |s.body| + 2 == off + |Render(s)|
            && r[st..st + |s.body|] == s.body
  {
    RenderAt(r, off, s);
  }

  /** One unfolding of the outer scan at a `[` whose header and body scans succeed. */
  lemma SectionsFromBracket(r: string, i: nat, ed: nat, out: SectionFn)
    requires i + 1 < |r| && r[i] == '['
    requires HeaderEnd(r, i + 1) == Ok(ed)
    requires ed + 2 <= BodyEnd(r, ed + 2).end
    ensures SectionsFrom(r, i, out)
            == Concat(out(r[i + 1..ed], r[ed + 2..BodyEnd(r, ed + 2).end]),
                      SectionsFrom(r, BodyEnd(r, ed + 2).next, out))
  {
  }

  /** The outer scan passes over a byte other than `[`. */
  lemma SectionsFromSkip(r: string, i: nat, out: SectionFn)
    requires i + 1 < |r| && r[i] != '['
    ensures SectionsFrom(r, i, out) == SectionsFrom(r, i + 1, out)
  {
  }

  /** The outer scan stops at the last byte. */
  lemma SectionsFromEnd(r: string, i: nat, out: SectionFn)
    requires 0 < |r| && |r| - 1 <= i <= |r|
    ensures SectionsFrom(r, i, out) == Ok([])
  {
  }

  /** The outer scan at a `[` whose header ends at the `]` at `ed` and whose body runs
      from `ed + 2` to a blank line at `k`. */
  lemma SectionAt(r: string, off: nat, ed: nat, k: nat, out: SectionFn)
    requires off < ed && ed + 2 <= k && k + 2 <= |r| && r[off] == '['
    requires HeaderEnd(r, off + 1) == Ok(ed)
    requires BodyEnd(r, ed + 2) == if k + 2 == |r| then BodySpan(|r| - 1, k) else BodySpan(k, k + 1)
    requires r[k] == '\n' && r[k + 1] == '\n'
    ensures SectionsFrom(r, off, out)
            == if k + 2 == |r| then Concat(out(r[off + 1..ed], r[ed + 2..|r| - 1]), Ok([]))
               else Concat(out(r[off + 1..ed], r[ed + 2..k]), SectionsFrom(r, k + 2, out))
  {
    SectionsFromBracket(r, off, ed, out);
    if k + 2 == |r| {
      SectionsFromSkip(r, k, out);
      SectionsFromEnd(r, k + 1, out);
    } else {
      SectionsFromSkip(r, k + 1, out);
    }
  }

  /** The outer scan at the `[` of section `s`: the section's output, then the rest of
      the document from just after its closing blank line. Only the last section's
      body keeps its final newline. */
  lemma OneSection(r: string, off: nat, s: SectionText, out: SectionFn)
    requires var ed := off + 1 + |s.header|;
             var k := ed + 2 + |s.body|;
             && k + 2 <= |r| && r[off] == '[' && r[k] == '\n' && r[k + 1] == '\n'
             && HeaderEnd(r, off + 1) == Ok(ed) && r[off + 1..ed] == s.header
             && r[ed + 2..k] == s.body
             && BodyEnd(r, ed + 2) == if k + 2 == |r| then BodySpan(|r| - 1, k) else BodySpan(k, k + 1)
    ensures var k := off + |s.header| + 3 + |s.body|;
            SectionsFrom(r, off, out)
            == if k + 2 == |r| then Concat(out(s.header, s.body + "\n"), Ok([]))
               else Concat(out(s.header, s.body), SectionsFrom(r, k + 2, out))
  {
    var ed := off + 1 + |s.header|;
    var k := ed + 2 + |s.body|;
    if k + 2 == |r| {
      assert r[ed + 2..|r| - 1] == s.body + "\n" by {
        assert r[ed + 2..k + 1] == r[ed + 2..k] + [r[k]];
      }
    }
    SectionAt(r, off, ed, k, out);
  }

  /** The landmarks of a rendered section `s` at `off` that the outer scan meets. */
  lemma RenderedSection(r: string, off: nat, s: SectionText)
    requires WellFormed(s)
    requires off + |Render(s)| <= |r| && r[off..off + |Render(s)|] == Render(s)
    ensures var ed := off + 1 + |s.header|;
            var k := ed + 2 + |s.body|;
            && k + 2 <= |r| && r[off] == '[' && r[k] == '\n' && r[k + 1] == '\n'
            && HeaderEnd(r, off + 1) == Ok(ed) && r[off + 1..ed] == s.header
            && r[ed + 2..k] == s.body
            && BodyEnd(r, ed + 2) == if k + 2 == |r| then BodySpan(|r| - 1, k) else BodySpan(k, k + 1)
  {
    Landmarks(r, off, s);
    HeaderOfRendered(r, off, s);
    BodyOfRendered(r, off, s);
  }

  /** What the outer scan collects from the sections with `out`, in document order:
      the last section's body is read with its final newline. */
  function Scanned(secs: seq<SectionText>, out: SectionFn): Result<string>
    requires secs != []
  {
    if |secs| == 1 then Concat(out(secs[0].header, secs[0].body + "\n"), Ok([]))
    else Concat(out(secs[0].header, secs[0].body), Scanned(secs[1..], out))
  }

  /** The outer scan meets each rendered section at its `[`, finds its header and
      body, and resumes at the second newline of its closing blank line. */
  lemma {:induction false} SectionsFromDocument(r: string, off: nat, secs: seq<SectionText>, out: SectionFn)
    requires secs != [] && forall s | s in secs :: WellFormed(s)
    requires off + |Document(secs)| == |r| && r[off..] == Document(secs)
    ensures SectionsFrom(r, off, out) == Scanned(secs, out)
    decreases |secs|
  {
    var s := secs[0];
    assert s in secs;
    var R := Render(s);
    var rest := secs[1..];
    assert Document(secs) == R + Document(rest);
    assert r[off..off + |R|] == R;
    var k := off + |s.header| + 3 + |s.body|;
    assert SectionsFrom(r, off, out)
           == if k + 2 == |r| then Concat(out(s.header, s.body + "\n"), Ok([]))
              else Concat(out(s.header, s.body), SectionsFrom(r, k + 2, out)) by {
      RenderedSection(r, off, s);
      OneSection(r, off, s, out);
    }
    assert k + 2 == off + |R|;
    if rest != [] {
      assert |Document(rest)| > 0 by {
        assert Document(rest) == Render(rest[0]) + Document(rest[1..]);
      }
      assert r[k + 2..] == Document(rest);
      forall t | t in rest ensures WellFormed(t) {
        assert t in secs;
      }
      SectionsFromDocument(r, k + 2, rest, out);
      assert k + 2 != |r|;
      assert Scanned(secs, out) == Concat(out(s.header, s.body), Scanned(rest, out));
    } else {
      assert k + 2 == |r|;
      assert Scanned(secs, out) == Concat(out(s.header, s.body + "\n"), Ok([]));
    }
  }

  /** With `SectionOutput`, the final newline of the last body changes nothing. */
  lemma {:induction false} ScannedOutputs(secs: seq<SectionText>)
    requires secs != [] && forall s | s in secs :: WellFormed(s)
    ensures Scanned(secs, SectionOutput) == Outputs(secs)
    decreases |secs|
  {
    assert secs[0] in secs;
    if |secs| == 1 {
      SectionOutputTrailingNewline(secs[0].header, secs[0].body);
      assert secs[1..] == [];
    } else {
      forall t | t in secs[1..] ensures WellFormed(t) {
        assert t in secs;
      }
      ScannedOutputs(secs[1..]);
    }
  }

  /** A document made of well-formed sections yields, in order, what each section
      contributes: its declared fields for `V4+ Styles` and `Events`, nothing otherwise. */
  lemma DocumentOutput(secs: seq<SectionText>)
    requires secs != [] && forall s | s in secs :: WellFormed(s)
    ensures Parse(Document(secs)) == Outputs(secs)
  {
    var r := Document(secs);
    assert r == Render(secs[0]) + Document(secs[1..]);
    assert r[0..] == r;
    SectionsFromDocument(r, 0, secs, SectionOutput);
    ScannedOutputs(secs);
  }

  /** A `V4+ Styles` or `Events` body whose first line is a declaration contributes
      the declared names, each on its own line, except the last. */
  lemma DeclaredSectionOutput(h: string, names: seq<string>, sep: string, rows: string)
    requires h == "V4+ Styles" || h == "Events"
    requires ValidNames(names) && IsSeparator(sep)
    requires forall n | n in names :: '\n' !in n
    ensures SectionOutput(h, DeclarationLine(names, sep) + "\n" + rows)
            == Ok(Lines(names[..|names| - 1]))
  {
    var line := DeclarationLine(names, sep);
    var body := line + "\n" + rows;
    NoNewlineInJoined(names, sep);
    assert body[..|line|] == line;
    forall j | 0 <= j < |line| ensures body[j] != '\n' {
      if j >= 8 {
        assert body[j] == Joined(names, sep)[j - 8];
        assert Joined(names, sep)[j - 8] in Joined(names, sep);
      } else {
        assert body[j] == "Format: "[j];
      }
    }
    assert body[|line|] == '\n';
    var e := LineEnd(body, 0);
    assert e.Ok?;
    assert e.value == |line|;
    FormatAsWrittenDropsLast(names, sep);
  }

  /** Joined names without newlines have none. */
  lemma {:induction false} NoNewlineInJoined(names: seq<string>, sep: string)
    requires |names| > 0 && IsSeparator(sep)
    requires forall n | n in names :: '\n' !in n
    ensures '\n' !in Joined(names, sep)
    decreases |names|
  {
    assert names[0] in names;
    if |names| > 1 {
      forall n | n in names[1..] ensures '\n' !in n {
        assert n in names;
      }
      NoNewlineInJoined(names[1..], sep);
    }
  }

  /** The header scan, as a loop. */
  method FindHeaderEnd(r: string, j: nat) returns (e: Result<nat>)
    ensures e == HeaderEnd(r, j)
  {
    var i := j;
    while i < |r| && r[i] != ']'
      invariant j <= i
      invariant HeaderEnd(r, j) == HeaderEnd(r, i)
      decreases |r| - i
    {
      i := i + 1;
    }
    if i >= |r| {
      return Err(StructureInvalid);
    }
    return Ok(i);
  }

  /** The body scan, as a loop. */
  method FindBodyEnd(r: string, st: nat) returns (b: BodySpan)
    requires |r| > 0
    ensures b == BodyEnd(r, st)
  {
    var i := st;
    while true
      invariant st <= i
      invariant BodyEnd(r, st) == BodyEnd(r, i)
      decreases |r| - i
    {
      if i + 2 >= |r| {
        return BodySpan(|r| - 1, i);
      }
      if r[i] == '\n' && r[i + 1] == '\n' {
        return BodySpan(i, i + 1);
      }
      i := i + 1;
    }
  }

  /** The `V4+ Styles` / `Events` arm: find the first line, split it with
      `parse_format` and append each field and a newline to `ret`. */
  method AppendDeclaredFields(ret: string, body: string) returns (res: Result<string>)
    ensures res == Prepend(ret, DeclaredFields(body))
  {
    var i := 0;
    while i < |body| && body[i] != '\n'
      invariant i <= |body|
      invariant LineEnd(body, 0) == LineEnd(body, i)
    {
      i := i + 1;
    }
    if i >= |body| {
      return Err(StructureInvalid);
    }
    assert body[0..i] == body[..i];
    var fields := ParseFormat(body[0..i]);
    if fields.Err? {
      return Err(fields.error);
    }
    var fs := fields.value;
    var out := ret;
    for k := 0 to |fs|
      invariant out == ret + Lines(fs[..k])
    {
      assert fs[..k + 1][..k] == fs[..k];
      out := out + fs[k] + "\n";
    }
    assert fs[..|fs|] == fs;
    return Ok(out);
  }

  /** Appending one section's output to the text gathered so far. */
  lemma PrependConcat(p: string, a: Result<string>, b: Result<string>)
    ensures a.Err? ==> Prepend(p, Concat(a, b)) == Err(a.error)
    ensures a.Ok? ==> Prepend(p, Concat(a, b)) == Prepend(p + a.value, b)
  {
    if a.Ok? && b.Ok? {
      assert p + (a.value + b.value) == p + a.value + b.value;
    }
  }

  /** The `match` on the section header: only `V4+ Styles` and `Events` add to the text. */
  method AppendSection(ret: string, h: string, body: string) returns (out: Result<string>)
    ensures out == Prepend(ret, SectionOutput(h, body))
  {
    match HeaderSection(h) {
      case V4PlusStyles =>
        out := AppendDeclaredFields(ret, body);
      case Events =>
        out := AppendDeclaredFields(ret, body);
      case _ =>
        out := Ok(ret);
        assert ret + [] == ret;
    }
  }

  /** One iteration of the outer loop at a `[`: the section's output is appended to the
      text gathered so far, or its error ends the parse. */
  lemma ParseSectionsStep(r: string, i: nat, ed: nat, ret: string)
    requires i + 1 < |r| && r[i] == '['
    requires HeaderEnd(r, i + 1) == Ok(ed)
    requires ed + 2 <= BodyEnd(r, ed + 2).end
    ensures var b := BodyEnd(r, ed + 2);
            var o := Prepend(ret, SectionOutput(r[i + 1..ed], r[ed + 2..b.end]));
            && (o.Err? ==> Prepend(ret, SectionsFrom(r, i, SectionOutput)) == o)
            && (o.Ok? ==> Prepend(ret, SectionsFrom(r, i, SectionOutput))
                          == Prepend(o.value, SectionsFrom(r, b.next, SectionOutput)))
  {
    var b := BodyEnd(r, ed + 2);
    var text := SectionOutput(r[i + 1..ed], r[ed + 2..b.end]);
    SectionsFromBracket(r, i, ed, SectionOutput);
    PrependConcat(ret, text, SectionsFrom(r, b.next, SectionOutput));
  }

  /** `parse_sections`, with its outer loop. */
  method ParseSections(r: string) returns (res: Result<string>)
    ensures res == Parse(r)
    ensures |r| == 0 ==> res == Err(StructureInvalid)
  {
    if |r| == 0 {
      // `r.len() - 1` underflows
      return Err(StructureInvalid);
    }
    var ret := "";
    var i := 0;
    assert Prepend(ret, Parse(r)) == Parse(r) by {
      if Parse(r).Ok? {
        assert ret + Parse(r).value == Parse(r).value;
      }
    }
    while true
      invariant i <= |r|
      invariant Parse(r) == Prepend(ret, SectionsFrom(r, i, SectionOutput))
      decreases |r| - i
    {
      if i >= |r| - 1 {
        SectionsFromEnd(r, i, SectionOutput);
        assert Prepend(ret, Ok([])) == Ok(ret) by {
          assert ret + [] == ret;
        }
        break;
      }
      if r[i] == '[' {
        ghost var i0 := i;
        i := i + 1;
        var ed := FindHeaderEnd(r, i);
        if ed.Err? {
          return Err(ed.error);
        }
        var h := r[i..ed.value];
        i := ed.value + 1;
        i := i + 1;
        var st := i;
        var b := FindBodyEnd(r, st);
        if st > b.end {
          return Err(StructureInvalid);
        }
        var body := r[st..b.end];
        i := b.next;
        var out := AppendSection(ret, h, body);
        ParseSectionsStep(r, i0, ed.value, ret);
        if out.Err? {
          return Err(out.error);
        }
        ret := out.value;
      } else {
        SectionsFromSkip(r, i, SectionOutput);
        i := i + 1;
      }
    }
    return Ok(ret);
  }
}
