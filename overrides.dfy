/** Override-code decoding (`parse_bool`, `parse_override`) and the per-block
    step of `parse_dialogue`, which classifies a `{` block as an override or
    a comment and cuts out the override span. */
module Overrides {
  import opened Errors
  import opened Types

  /** `parse_bool`: a single byte that must read as the digit 0 or 1. Any other
      byte makes the source panic (a failed `unwrap` or the `_ => panic!()` arm). */
  function ParseBool(c: char): (r: Result<bool>)
    ensures r.Ok? <==> c == '0' || c == '1'
    ensures r.Ok? ==> (r.value <==> c == '1')
    ensures r.Err? ==> r.error == OCInvalidParams
  {
    match c
    case '0' => Ok(false)
    case '1' => Ok(true)
    case _ => Err(OCInvalidParams)
  }

  /** The digit an override tag writes for a flag. */
  function BoolDigit(b: bool): (c: char)
    ensures ParseBool(c) == Ok(b)
  {
    if b then '1' else '0'
  }

  /** `parse_override`: dispatches only on the total length of the span; the
      first byte (the backslash) is never looked at. */
  function ParseOverride(r: seq<char>): (oc: Result<OverrideCode>)
    ensures oc.Ok? ==> |r| == 3 || |r| == 4
    ensures |r| != 3 && |r| != 4 ==> oc == Err(OCInvalid)
  {
    if |r| == 3 then
      match r[1]
      case 'b' => var v :- ParseBool(r[2]); Ok(Bold(v))
      case 'i' => var v :- ParseBool(r[2]); Ok(Italic(v))
      case 'u' => var v :- ParseBool(r[2]); Ok(Underline(v))
      case 's' => var v :- ParseBool(r[2]); Ok(Strikeout(v))
      case _ => Err(OCInvalid)
    else if |r| == 4 then
      if r[1..3] == "be" then
        var v :- ParseBool(r[3]); Ok(BlurEdges(v))
      else
        Err(OCInvalid)
    else
      Err(OCInvalid)
  }

  /** The five codes `parse_override` can produce: one-flag toggles. */
  predicate IsToggle(oc: OverrideCode) {
    oc.Bold? || oc.Italic? || oc.Underline? || oc.Strikeout? || oc.BlurEdges?
  }

  /** The tag name a toggle is written with. */
  function TagName(oc: OverrideCode): string
    requires IsToggle(oc)
  {
    match oc
    case Bold(_) => "b"
    case Italic(_) => "i"
    case Underline(_) => "u"
    case Strikeout(_) => "s"
    case BlurEdges(_) => "be"
  }

  /** The flag a toggle carries. */
  function Flag(oc: OverrideCode): bool
    requires IsToggle(oc)
  {
    match oc
    case Bold(b) => b
    case Italic(b) => b
    case Underline(b) => b
    case Strikeout(b) => b
    case BlurEdges(b) => b
  }

  /** How a toggle is written inside a block: backslash, tag name, digit. */
  function EncodeToggle(oc: OverrideCode): (span: string)
    requires IsToggle(oc)
  {
    "\\" + TagName(oc) + [BoolDigit(Flag(oc))]
  }

  /** Decoding a written toggle gives the toggle back. */
  lemma ParseOverrideRoundTrip(oc: OverrideCode)
    requires IsToggle(oc)
    ensures ParseOverride(EncodeToggle(oc)) == Ok(oc)
  {
    var span := EncodeToggle(oc);
    if oc.BlurEdges? {
      assert span[1..3] == "be";
    }
  }

  /** Conversely, every span that decodes is a written toggle, up to its first byte. */
  lemma ParseOverrideOnlyToggles(r: seq<char>)
    requires ParseOverride(r).Ok?
    ensures IsToggle(ParseOverride(r).value)
    ensures r[1..] == EncodeToggle(ParseOverride(r).value)[1..]
  {
    var oc := ParseOverride(r).value;
    if |r| == 4 {
      assert r[1..3] == "be";
      assert r[1..] == r[1..3] + [r[3]];
    } else {
      assert r[1..] == [r[1], r[2]];
    }
  }

  /** The first byte of the span never influences the result. */
  lemma ParseOverrideIgnoresFirstByte(r: seq<char>, c: char)
    requires |r| > 0
    ensures ParseOverride([c] + r[1..]) == ParseOverride(r)
  {
    var r' := [c] + r[1..];
    assert |r'| == |r|;
    assert forall k :: 1 <= k < |r| ==> r'[k] == r[k];
    if |r| == 4 {
      assert r'[1..3] == r[1..3];
    }
  }

  /** A byte that ends an override span. */
  predicate IsCloser(c: char) {
    c == '\\' || c == '}'
  }

  /** The inner loop of `parse_dialogue`: from `o1`, the first index `o2` whose
      successor is a backslash or `}`. Running off the end is an out-of-range read. */
  function SpanEnd(r: seq<char>, o1: nat): (o2: Result<nat>)
    decreases |r| - o1
    ensures o2.Ok? ==> o1 <= o2.value && o2.value + 1 < |r| && IsCloser(r[o2.value + 1])
    ensures o2.Ok? ==> forall k :: o1 < k <= o2.value ==> !IsCloser(r[k])
    ensures o2.Err? ==> o2.error == StructureInvalid && forall k :: o1 < k < |r| ==> !IsCloser(r[k])
  {
    if o1 + 1 >= |r| then Err(StructureInvalid)
    else if IsCloser(r[o1 + 1]) then Ok(o1)
    else SpanEnd(r, o1 + 1)
  }

  /** The span end is the first closer: any candidate with the two properties is it. */
  lemma {:induction false} SpanEndIsFirst(r: seq<char>, o1: nat, o2: nat)
    requires o1 <= o2 && o2 + 1 < |r| && IsCloser(r[o2 + 1])
    requires forall k :: o1 < k <= o2 ==> !IsCloser(r[k])
    ensures SpanEnd(r, o1) == Ok(o2)
    decreases o2 - o1
  {
    if o1 < o2 {
      SpanEndIsFirst(r, o1 + 1, o2);
    }
  }

  /** What one block step finds at the index it looks at. */
  datatype Block =
    | Text            // not a `{`: the source's loop does not move on
    | Comment         // `{` not followed by a backslash: nothing is produced
    | Tag(code: OverrideCode)

  /** A block and the index the source's loop continues from. */
  datatype Step = Step(block: Block, next: nat)

  /** One pass of the body of `parse_dialogue`'s outer loop at index `i`, as written:
      the override span is `r[o1..o2]`, which stops one byte short of the closer. */
  function BlockAt(r: seq<char>, i: nat): (s: Result<Step>)
    ensures s.Ok? && s.value.block.Comment? <==> i + 1 < |r| && r[i] == '{' && r[i + 1] != '\\'
    ensures s.Ok? && s.value.block.Text? <==> i < |r| && r[i] != '{'
    ensures s.Ok? && s.value.block.Text? ==> s.value.next == i
    ensures s.Ok? && s.value.block.Comment? ==> s.value.next == i + 1
    ensures s.Ok? && s.value.block.Tag? ==>
              i + 1 <= s.value.next && s.value.next + 1 < |r| && r[i] == '{' && r[i + 1] == '\\'
              && IsCloser(r[s.value.next + 1])
              && (forall k | i + 1 < k <= s.value.next :: !IsCloser(r[k]))
              && ParseOverride(r[i + 1..s.value.next]) == Ok(s.value.block.code)
    ensures i + 1 < |r| && r[i] == '{' && r[i + 1] == '\\' ==>
              (s.Ok? <==> SpanEnd(r, i + 1).Ok? && ParseOverride(r[i + 1..SpanEnd(r, i + 1).value]).Ok?)
  {
    if i >= |r| then Err(StructureInvalid)
    else if r[i] != '{' then Ok(Step(Text, i))
    else if i + 1 >= |r| then Err(StructureInvalid)
    else if r[i + 1] != '\\' then Ok(Step(Comment, i + 1))
    else
      var o1 := i + 1;
      var o2 :- SpanEnd(r, o1);
      var code :- ParseOverride(r[o1..o2]);
      Ok(Step(Tag(code), o2))
  }

  /** The block step with the span the tag grammar evidently expects, `r[o1..o2 + 1]`,
      which keeps the byte just before the closer. */
  function BlockAtIntended(r: seq<char>, i: nat): (s: Result<Step>)
    ensures s.Ok? && s.value.block.Comment? <==> i + 1 < |r| && r[i] == '{' && r[i + 1] != '\\'
    ensures s.Ok? && s.value.block.Text? <==> i < |r| && r[i] != '{'
    ensures s.Ok? && s.value.block.Text? ==> s.value.next == i
    ensures s.Ok? && s.value.block.Comment? ==> s.value.next == i + 1
    ensures s.Ok? && s.value.block.Tag? ==>
              i + 1 <= s.value.next && s.value.next + 1 < |r| && r[i] == '{' && r[i + 1] == '\\'
              && IsCloser(r[s.value.next + 1])
              && (forall k | i + 1 < k <= s.value.next :: !IsCloser(r[k]))
              && ParseOverride(r[i + 1..s.value.next + 1]) == Ok(s.value.block.code)
    ensures i + 1 < |r| && r[i] == '{' && r[i + 1] == '\\' ==>
              (s.Ok? <==> SpanEnd(r, i + 1).Ok? && ParseOverride(r[i + 1..SpanEnd(r, i + 1).value + 1]).Ok?)
  {
    if i >= |r| then Err(StructureInvalid)
    else if r[i] != '{' then Ok(Step(Text, i))
    else if i + 1 >= |r| then Err(StructureInvalid)
    else if r[i + 1] != '\\' then Ok(Step(Comment, i + 1))
    else
      var o1 := i + 1;
      var o2 :- SpanEnd(r, o1);
      var code :- ParseOverride(r[o1..o2 + 1]);
      Ok(Step(Tag(code), o2))
  }

  /** Where the written toggle `{\tag d}` ends in `pre + "{" + span + "}" + post`. */
  lemma {:induction false} ToggleBlockSpan(pre: string, oc: OverrideCode, post: string)
    requires IsToggle(oc)
    ensures var r := pre + "{" + EncodeToggle(oc) + "}" + post;
            var span := EncodeToggle(oc);
            |pre| + |span| + 1 < |r|
            && r[|pre|] == '{' && r[|pre| + 1] == '\\'
            && r[|pre| + 1..|pre| + |span| + 1] == span
            && SpanEnd(r, |pre| + 1) == Ok(|pre| + |span|)
  {
    var r := pre + "{" + EncodeToggle(oc) + "}" + post;
    var span := EncodeToggle(oc);
    var o1, o2 := |pre| + 1, |pre| + |span|;
    assert forall k :: 0 <= k < |span| ==> r[o1 + k] == span[k];
    assert r[o2 + 1] == '}';
    assert r[o1..o2 + 1] == span;
    forall k | o1 < k <= o2
      ensures !IsCloser(r[k])
    {
      assert r[k] == span[k - o1];
    }
    SpanEndIsFirst(r, o1, o2);
  }

  /** As written, a well-formed toggle block never decodes: the span loses its digit,
      so `{\b1}` reaches `parse_override` as `\b` and `{\be1}` as `\be`. */
  lemma AsWrittenRejectsToggles(pre: string, oc: OverrideCode, post: string)
    requires IsToggle(oc)
    ensures BlockAt(pre + "{" + EncodeToggle(oc) + "}" + post, |pre|)
            == Err(if oc.BlurEdges? then OCInvalidParams else OCInvalid)
  {
    var r := pre + "{" + EncodeToggle(oc) + "}" + post;
    var span := EncodeToggle(oc);
    ToggleBlockSpan(pre, oc, post);
    assert r[|pre| + 1..|pre| + |span|] == span[..|span| - 1];
    if oc.BlurEdges? {
      assert span[..|span| - 1][1] == 'b' && span[..|span| - 1][2] == 'e';
    }
  }

  /** With the intended span, every well-formed toggle block decodes to its toggle,
      and the loop continues at the byte before the closer. */
  lemma IntendedDecodesToggles(pre: string, oc: OverrideCode, post: string)
    requires IsToggle(oc)
    ensures BlockAtIntended(pre + "{" + EncodeToggle(oc) + "}" + post, |pre|)
            == Ok(Step(Tag(oc), |pre| + |EncodeToggle(oc)|))
  {
    ToggleBlockSpan(pre, oc, post);
    ParseOverrideRoundTrip(oc);
  }

  /** As written, a junk byte before the closer makes the short span come out right:
      `{\b1x}` decodes to `Bold(true)`. */
  lemma AsWrittenJunkByteDecodes()
    ensures BlockAt("{\\b1x}", 0) == Ok(Step(Tag(Bold(true)), 4))
  {
    var r := "{\\b1x}";
    SpanEndIsFirst(r, 1, 4);
    assert r[1..4] == "\\b1";
  }

  /** The inner scan of `parse_dialogue`, as a loop. */
  method FindSpanEnd(r: seq<char>, o1: nat) returns (o2: Result<nat>)
    ensures o2 == SpanEnd(r, o1)
  {
    var i := o1;
    while i + 1 < |r| && !IsCloser(r[i + 1])
      invariant o1 <= i
      invariant SpanEnd(r, o1) == SpanEnd(r, i)
      decreases |r| - i
    {
      i := i + 1;
    }
    if i + 1 >= |r| {
      return Err(StructureInvalid);
    }
    return Ok(i);
  }

  /** One block step of `parse_dialogue` at index `i`, as written. */
  method DialogueStep(r: seq<char>, i: nat) returns (s: Result<Step>)
    ensures s == BlockAt(r, i)
  {
    if i >= |r| {
      return Err(StructureInvalid);
    }
    if r[i] != '{' {
      return Ok(Step(Text, i));
    }
    var j := i + 1;
    if j >= |r| {
      return Err(StructureInvalid);
    }
    if r[j] != '\\' {
      // a comment
      return Ok(Step(Comment, j));
    }
    var o1 := j;
    var o2 := FindSpanEnd(r, o1);
    if o2.Err? {
      return Err(o2.error);
    }
    var code := ParseOverride(r[o1..o2.value]);
    if code.Err? {
      return Err(code.error);
    }
    return Ok(Step(Tag(code.value), o2.value));
  }
}
