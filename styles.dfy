/** The `Style` record and `parse_style`, which decodes one `Style: ` row against
    the field names of the section's format declaration. */
module Styles {
  import opened Errors
  import opened Numbers
  import FormatLine

  type Int8 = n: int | -0x80 <= n < 0x80
  type Int16 = n: int | -0x8000 <= n < 0x8000
  type Int32 = n: int | -0x8000_0000 <= n < 0x8000_0000
  type Int64 = n: int | -0x8000_0000_0000_0000 <= n < 0x8000_0000_0000_0000

  /** A style. `angle`, `outline` and `shadow` are `f32` in the source; this model keeps
      their raw text (empty standing for the default 0.0). */
  datatype Style = Style(
    name: string,
    fontName: string,
    fontSize: Int8,
    primaryColour: Int64,
    secondaryColour: Int64,
    outlineColour: Int64,
    backColour: Int64,
    bold: bool,
    italic: bool,
    underline: bool,
    strikeout: bool,
    scaleX: Int16,
    scaleY: Int16,
    spacing: Int32,
    angle: string,
    borderStyle: Int8,
    outline: string,
    shadow: string,
    alignment: Int8,
    marginL: Int32,
    marginR: Int32,
    marginV: Int32)

  /** `Style::default()`: zero, empty and false everywhere. */
  const DefaultStyle: Style :=
    Style("", "", 0, 0, 0, 0, 0, false, false, false, false, 0, 0, 0, "", 0, "", "", 0, 0, 0, 0)

  /** Every field of the default style is empty text, 0 or false, as its type has it. */
  lemma DefaultFields(g: Field)
    ensures Get(DefaultStyle, g) == match KindOf(g)
                                   case Verbatim => Text([])
                                   case TriState => Flag(false)
                                   case Integer(_) => Number(0)
  {
  }

  /** `parse!()`: a tri-state flag, the `i8` value -1 for true and 0 for false. A
      failed parse (`unwrap`) or any other value (`unimplemented!`) is a failure. */
  function ParseTriState(v: string): (b: Result<bool>)
    ensures b == Ok(true) <==> ParseSigned(v, I8) == Some(-1)
    ensures b == Ok(false) <==> ParseSigned(v, I8) == Some(0)
    ensures b.Err? ==> b.error == StructureInvalid
  {
    match ParseSigned(v, I8)
    case None => Err(StructureInvalid)
    case Some(n) =>
      if n == -1 then Ok(true)
      else if n == 0 then Ok(false)
      else Err(StructureInvalid)
  }

  /** `parse!(iN)`: the value or, when `unwrap` would panic, a failure. */
  function ParseInt(v: string, w: Width): (n: Result<int>)
    ensures n.Ok? <==> ParseSigned(v, w).Some?
    ensures n.Ok? ==> n.value == ParseSigned(v, w).value && MinOf(w) <= n.value <= MaxOf(w)
    ensures n.Err? ==> n.error == StructureInvalid
  {
    match ParseSigned(v, w)
    case None => Err(StructureInvalid)
    case Some(x) => Ok(x)
  }

  /** The fields of a style, one per member of the record. */
  datatype Field =
    | NameField | FontNameField | FontSizeField
    | PrimaryColourField | SecondaryColourField | OutlineColourField | BackColourField
    | BoldField | ItalicField | UnderlineField | StrikeoutField
    | ScaleXField | ScaleYField | SpacingField | AngleField | BorderStyleField
    | OutlineField | ShadowField | AlignmentField | MarginLField | MarginRField | MarginVField

  /** The colours and MarginV are the fields `parse_style` has no arm for. */
  predicate Assignable(f: Field) {
    f !in {PrimaryColourField, SecondaryColourField, OutlineColourField, BackColourField, MarginVField}
  }

  /** The field whose arm a format name selects in the `match k` of `parse_style`; the
      colours, MarginV and every other name select none. */
  function FieldOf(k: string): (f: Option<Field>)
    ensures f.Some? ==> Assignable(f.value)
  {
    match k
    case "Name" => Some(NameField)
    case "Fontname" => Some(FontNameField)
    case "Fontsize" => Some(FontSizeField)
    case "Bold" => Some(BoldField)
    case "Italic" => Some(ItalicField)
    case "Underline" => Some(UnderlineField)
    case "Strikeout" => Some(StrikeoutField)
    case "ScaleX" => Some(ScaleXField)
    case "ScaleY" => Some(ScaleYField)
    case "Spacing" => Some(SpacingField)
    case "Angle" => Some(AngleField)
    case "BorderStyle" => Some(BorderStyleField)
    case "Outline" => Some(OutlineField)
    case "Shadow" => Some(ShadowField)
    case "Alignment" => Some(AlignmentField)
    case "MarginL" => Some(MarginLField)
    case "MarginR" => Some(MarginRField)
    case _ => None
  }

  /** How a field's text is coerced: kept as it is, `parse!()`, or `parse!(iN)`. */
  datatype FieldKind = Verbatim | TriState | Integer(w: Width)

  function KindOf(f: Field): (kind: FieldKind)
    ensures kind == Verbatim <==> f in {NameField, FontNameField, AngleField, OutlineField, ShadowField}
    ensures kind == TriState <==> f in {BoldField, ItalicField, UnderlineField, StrikeoutField}
    ensures kind == Integer(I8) <==> f in {FontSizeField, BorderStyleField, AlignmentField}
    ensures kind == Integer(I16) <==> f in {ScaleXField, ScaleYField}
    ensures kind == Integer(I32) <==> f in {SpacingField, MarginLField, MarginRField, MarginVField}
  {
    match f
    case NameField => Verbatim
    case FontNameField => Verbatim
    case AngleField => Verbatim
    case OutlineField => Verbatim
    case ShadowField => Verbatim
    case BoldField => TriState
    case ItalicField => TriState
    case UnderlineField => TriState
    case StrikeoutField => TriState
    case FontSizeField => Integer(I8)
    case BorderStyleField => Integer(I8)
    case AlignmentField => Integer(I8)
    case ScaleXField => Integer(I16)
    case ScaleYField => Integer(I16)
    case SpacingField => Integer(I32)
    case MarginLField => Integer(I32)
    case MarginRField => Integer(I32)
    case MarginVField => Integer(I32)
    case _ => Integer(I64)
  }

  /** A field's value, whatever its type. */
  datatype FieldValue = Text(s: string) | Number(n: int) | Flag(b: bool)

  /** Value `x` has the type of a field of kind `kind`. */
  predicate Fits(kind: FieldKind, x: FieldValue) {
    match kind
    case Verbatim => x.Text?
    case TriState => x.Flag?
    case Integer(w) => x.Number? && MinOf(w) <= x.n <= MaxOf(w)
  }

  /** The coerced value of text `v` for a field of kind `kind`; a failed coercion is
      the panic of `parse!`. */
  function Coerce(kind: FieldKind, v: string): (x: Result<FieldValue>)
    ensures x.Ok? ==> Fits(kind, x.value)
    ensures x.Err? ==> x.error == StructureInvalid
    ensures kind == Verbatim ==> x == Ok(FieldValue.Text(v))
    ensures kind == TriState ==>
              && (x.Ok? <==> ParseTriState(v).Ok?)
              && (x.Ok? ==> x.value == FieldValue.Flag(ParseTriState(v).value))
    ensures kind.Integer? ==>
              && (x.Ok? <==> ParseInt(v, kind.w).Ok?)
              && (x.Ok? ==> x.value == Number(ParseInt(v, kind.w).value))
  {
    match kind
    case Verbatim => Ok(Text(v))
    case TriState => var b :- ParseTriState(v); Ok(Flag(b))
    case Integer(w) => var n :- ParseInt(v, w); Ok(Number(n))
  }

  /** Stores value `x` in field `f`. */
  function Put(st: Style, f: Field, x: FieldValue): Style
    requires Fits(KindOf(f), x)
  {
    match f
    case NameField => st.(name := x.s)
    case FontNameField => st.(fontName := x.s)
    case FontSizeField => st.(fontSize := x.n)
    case PrimaryColourField => st.(primaryColour := x.n)
    case SecondaryColourField => st.(secondaryColour := x.n)
    case OutlineColourField => st.(outlineColour := x.n)
    case BackColourField => st.(backColour := x.n)
    case BoldField => st.(bold := x.b)
    case ItalicField => st.(italic := x.b)
    case UnderlineField => st.(underline := x.b)
    case StrikeoutField => st.(strikeout := x.b)
    case ScaleXField => st.(scaleX := x.n)
    case ScaleYField => st.(scaleY := x.n)
    case SpacingField => st.(spacing := x.n)
    case AngleField => st.(angle := x.s)
    case BorderStyleField => st.(borderStyle := x.n)
    case OutlineField => st.(outline := x.s)
    case ShadowField => st.(shadow := x.s)
    case AlignmentField => st.(alignment := x.n)
    case MarginLField => st.(marginL := x.n)
    case MarginRField => st.(marginR := x.n)
    case MarginVField => st.(marginV := x.n)
  }

  /** The `match k` in the loop of `parse_style`: the arm the name `k` selects stores
      the value `v`, coerced to its field's type; a name without an arm changes
      nothing. */
  function AssignField(st: Style, k: string, v: string): (res: Result<Style>)
    ensures res.Err? ==> FieldOf(k).Some? && res.error == StructureInvalid
  {
    match FieldOf(k)
    case None => Ok(st)
    case Some(f) => var x :- Coerce(KindOf(f), v); Ok(Put(st, f, x))
  }

  /** The value a style holds in field `f`. */
  function Get(st: Style, f: Field): (x: FieldValue)
    ensures Fits(KindOf(f), x)
  {
    match f
    case NameField => Text(st.name)
    case FontNameField => Text(st.fontName)
    case FontSizeField => Number(st.fontSize)
    case PrimaryColourField => Number(st.primaryColour)
    case SecondaryColourField => Number(st.secondaryColour)
    case OutlineColourField => Number(st.outlineColour)
    case BackColourField => Number(st.backColour)
    case BoldField => Flag(st.bold)
    case ItalicField => Flag(st.italic)
    case UnderlineField => Flag(st.underline)
    case StrikeoutField => Flag(st.strikeout)
    case ScaleXField => Number(st.scaleX)
    case ScaleYField => Number(st.scaleY)
    case SpacingField => Number(st.spacing)
    case AngleField => Text(st.angle)
    case BorderStyleField => Number(st.borderStyle)
    case OutlineField => Text(st.outline)
    case ShadowField => Text(st.shadow)
    case AlignmentField => Number(st.alignment)
    case MarginLField => Number(st.marginL)
    case MarginRField => Number(st.marginR)
    case MarginVField => Number(st.marginV)
  }

  /** The name of field `f` in a style format declaration. */
  function NameOf(f: Field): string {
    match f
    case NameField => "Name"
    case FontNameField => "Fontname"
    case FontSizeField => "Fontsize"
    case PrimaryColourField => "PrimaryColour"
    case SecondaryColourField => "SecondaryColour"
    case OutlineColourField => "OutlineColour"
    case BackColourField => "BackColour"
    case BoldField => "Bold"
    case ItalicField => "Italic"
    case UnderlineField => "Underline"
    case StrikeoutField => "Strikeout"
    case ScaleXField => "ScaleX"
    case ScaleYField => "ScaleY"
    case SpacingField => "Spacing"
    case AngleField => "Angle"
    case BorderStyleField => "BorderStyle"
    case OutlineField => "Outline"
    case ShadowField => "Shadow"
    case AlignmentField => "Alignment"
    case MarginLField => "MarginL"
    case MarginRField => "MarginR"
    case MarginVField => "MarginV"
  }

  /** `parse_style` assigns every field by its own name except the four colours and
      MarginV, and a name it recognises is always the name of the field it selects. */
  lemma FieldsByName(f: Field, k: string)
    ensures FieldOf(NameOf(f)) == if Assignable(f) then Some(f) else None
    ensures FieldOf(k) == Some(f) ==> k == NameOf(f)
  {
  }

  /** `PutGet` for Name, FontName, FontSize, PrimaryColour, SecondaryColour and OutlineColour. */
  lemma PutGet1(st: Style, f: Field, x: FieldValue, g: Field)
    requires Fits(KindOf(f), x) && f in {NameField, FontNameField, FontSizeField, PrimaryColourField, SecondaryColourField, OutlineColourField}
    ensures Get(Put(st, f, x), g) == if g == f then x else Get(st, g)
  {
  }

  /** `PutGet` for BackColour, Bold, Italic, Underline, Strikeout and ScaleX. */
  lemma PutGet2(st: Style, f: Field, x: FieldValue, g: Field)
    requires Fits(KindOf(f), x) && f in {BackColourField, BoldField, ItalicField, UnderlineField, StrikeoutField, ScaleXField}
    ensures Get(Put(st, f, x), g) == if g == f then x else Get(st, g)
  {
  }

  /** `PutGet` for ScaleY, Spacing, Angle, BorderStyle and Outline. */
  lemma PutGet3(st: Style, f: Field, x: FieldValue, g: Field)
    requires Fits(KindOf(f), x) && f in {ScaleYField, SpacingField, AngleField, BorderStyleField, OutlineField}
    ensures Get(Put(st, f, x), g) == if g == f then x else Get(st, g)
  {
  }

  /** `PutGet` for Shadow, Alignment, MarginL, MarginR and MarginV. */
  lemma PutGet4(st: Style, f: Field, x: FieldValue, g: Field)
    requires Fits(KindOf(f), x) && f in {ShadowField, AlignmentField, MarginLField, MarginRField, MarginVField}
    ensures Get(Put(st, f, x), g) == if g == f then x else Get(st, g)
  {
  }

  /** Reading back a field gives the value stored there; every other field keeps its
      value. */
  lemma PutGet(st: Style, f: Field, x: FieldValue, g: Field)
    requires Fits(KindOf(f), x)
    ensures Get(Put(st, f, x), g) == if g == f then x else Get(st, g)
  {
    if f in {NameField, FontNameField, FontSizeField, PrimaryColourField, SecondaryColourField, OutlineColourField} {
      PutGet1(st, f, x, g);
    } else if f in {BackColourField, BoldField, ItalicField, UnderlineField, StrikeoutField, ScaleXField} {
      PutGet2(st, f, x, g);
    } else if f in {ScaleYField, SpacingField, AngleField, BorderStyleField, OutlineField} {
      PutGet3(st, f, x, g);
    } else {
      PutGet4(st, f, x, g);
    }
  }

  /** Assigning by name `k` fails exactly when the coercion for its field fails; on
      success that field holds the coerced value and every other field is unchanged. */
  lemma AssignFieldSpec(st: Style, k: string, v: string, g: Field)
    ensures FieldOf(k).None? ==> AssignField(st, k, v) == Ok(st)
    ensures FieldOf(k).Some? ==>
              var f := FieldOf(k).value;
              && (AssignField(st, k, v).Ok? <==> Coerce(KindOf(f), v).Ok?)
              && (AssignField(st, k, v).Ok? ==>
                    Get(AssignField(st, k, v).value, g) == if g == f then Coerce(KindOf(f), v).value else Get(st, g))
  {
    if FieldOf(k).Some? {
      var f := FieldOf(k).value;
      if Coerce(KindOf(f), v).Ok? {
        PutGet(st, f, Coerce(KindOf(f), v).value, g);
      }
    }
  }

  /** The first position of `c` in `s`. */
  function IndexOf(s: string, c: char): (i: nat)
    requires c in s
    ensures i < |s| && s[i] == c && c !in s[..i]
  {
    if s[0] == c then 0 else assert c in s[1..]; 1 + IndexOf(s[1..], c)
  }

  /** A position holding `c` with no `c` before it is the first position of `c`. */
  lemma {:induction false} IndexOfFirst(s: string, c: char, i: nat)
    requires i < |s| && s[i] == c && c !in s[..i]
    ensures IndexOf(s, c) == i
  {
    if i > 0 {
      assert s[0] == s[..i][0];
      assert s[1..][..i - 1] == s[..i][1..];
      IndexOfFirst(s[1..], c, i - 1);
    }
  }

  /** `str::split(",")`: the pieces between commas, at least one, possibly empty. */
  function Split(s: string): (parts: seq<string>)
    ensures |parts| > 0
    ensures forall p | p in parts :: ',' !in p
    ensures FormatLine.Joined(parts, ",") == s
    decreases |s|
  {
    if ',' !in s then [s]
    else
      var i := IndexOf(s, ',');
      var rest := Split(s[i + 1..]);
      var parts := [s[..i]] + rest;
      assert parts[1..] == rest;
      assert s == s[..i] + "," + s[i + 1..];
      parts
  }

  /** Splitting undoes joining comma-free pieces with commas. */
  lemma {:induction false} SplitJoined(parts: seq<string>)
    requires |parts| > 0 && forall p | p in parts :: ',' !in p
    ensures Split(FormatLine.Joined(parts, ",")) == parts
  {
    if |parts| > 1 {
      var s := FormatLine.Joined(parts, ",");
      var tail := FormatLine.Joined(parts[1..], ",");
      assert s == parts[0] + "," + tail;
      assert s[|parts[0]|] == ',';
      assert ',' in s;
      assert s[..|parts[0]|] == parts[0];
      IndexOfFirst(s, ',', |parts[0]|);
      assert s[|parts[0]| + 1..] == tail;
      forall p | p in parts[1..] ensures ',' !in p {
        assert p in parts;
      }
      SplitJoined(parts[1..]);
      assert [parts[0]] + parts[1..] == parts;
    } else {
      assert parts[0] in parts;
    }
  }

  /** The style after the assignments of the first `n` (name, value) pairs, starting
      from the default style; the first failed coercion is the result. */
  function Applied(format: seq<string>, values: seq<string>, n: nat): (res: Result<Style>)
    requires n <= |format| && n <= |values|
    ensures res.Err? ==> res.error == StructureInvalid
  {
    if n == 0 then Ok(DefaultStyle)
    else
      var st :- Applied(format, values, n - 1);
      AssignField(st, format[n - 1], values[n - 1])
  }

  /** Once an assignment fails, the fold keeps that failure. */
  lemma {:induction false} AppliedKeepsFailure(format: seq<string>, values: seq<string>, j: nat, n: nat)
    requires j <= n <= |format| && n <= |values|
    requires Applied(format, values, j).Err?
    ensures Applied(format, values, n) == Applied(format, values, j)
  {
    if j < n {
      AppliedKeepsFailure(format, values, j, n - 1);
    }
  }

  /** The last of the first `n` format names that selects field `g`, if any. */
  function LastIndex(format: seq<string>, n: nat, g: Field): (j: Option<nat>)
    requires n <= |format|
    ensures j.Some? ==> j.value < n && FieldOf(format[j.value]) == Some(g)
                        && forall i | j.value < i < n :: FieldOf(format[i]) != Some(g)
    ensures j.None? ==> forall i | 0 <= i < n :: FieldOf(format[i]) != Some(g)
  {
    if n == 0 then None
    else if FieldOf(format[n - 1]) == Some(g) then Some(n - 1)
    else LastIndex(format, n - 1, g)
  }

  /** The fold fails exactly when some pair names a field whose coercion fails. */
  lemma {:induction false} AppliedFails(format: seq<string>, values: seq<string>, n: nat)
    requires n <= |format| && n <= |values|
    ensures Applied(format, values, n).Err? <==>
              exists i | 0 <= i < n :: FieldOf(format[i]).Some? && Coerce(KindOf(FieldOf(format[i]).value), values[i]).Err?
    ensures Applied(format, values, n).Err? ==> Applied(format, values, n).error == StructureInvalid
  {
    if n > 0 {
      AppliedFails(format, values, n - 1);
      var prev := Applied(format, values, n - 1);
      if prev.Ok? {
        var k := format[n - 1];
        if FieldOf(k).Some? {
          AssignFieldSpec(prev.value, k, values[n - 1], FieldOf(k).value);
        }
      }
    }
  }

  /** When the fold succeeds, every field holds the value of the last pair that names
      it, or its default when no pair does. */
  lemma {:induction false} LastWins(format: seq<string>, values: seq<string>, n: nat, g: Field)
    requires n <= |format| && n <= |values|
    requires Applied(format, values, n).Ok?
    ensures match LastIndex(format, n, g)
            case None => Get(Applied(format, values, n).value, g) == Get(DefaultStyle, g)
            case Some(j) => Coerce(KindOf(g), values[j]) == Ok(Get(Applied(format, values, n).value, g))
  {
    if n > 0 {
      var prev := Applied(format, values, n - 1);
      var k := format[n - 1];
      if FieldOf(k).Some? {
        AssignFieldSpec(prev.value, k, values[n - 1], g);
      }
      LastWins(format, values, n - 1, g);
    }
  }

  /** The four colours and MarginV are never assigned: they keep their default 0. */
  lemma NeverAssigned(format: seq<string>, values: seq<string>, n: nat, g: Field)
    requires n <= |format| && n <= |values|
    requires Applied(format, values, n).Ok?
    requires !Assignable(g)
    ensures Get(Applied(format, values, n).value, g) == Number(0)
  {
    LastWins(format, values, n, g);
  }

  const StylePrefix: string := "Style: "

  function Min(a: nat, b: nat): nat {
    if a <= b then a else b
  }

  /** `parse_style`: a row without the `Style: ` prefix is no style; otherwise its
      comma-separated values are paired with the format's names, as far as both go, and
      applied in order to the default style. */
  function StyleOf(r: string, format: seq<string>): (res: Result<Option<Style>>)
    ensures res.Ok? && res.value.None? <==> !(|r| >= 7 && r[..7] == StylePrefix)
  {
    if |r| < 7 || r[..7] != StylePrefix then Ok(None)
    else
      var fields := Split(r[7..]);
      var st :- Applied(format, fields, Min(|format|, |fields|));
      Ok(Some(st))
  }

  /** The loop of `parse_style`. */
  method ParseStyle(r: string, format: seq<string>) returns (res: Result<Option<Style>>)
    ensures res == StyleOf(r, format)
  {
    if |r| < 7 || r[..7] != StylePrefix {
      return Ok(None);
    }
    var fields := Split(r[7..]);
    var n := Min(|format|, |fields|);
    var style := DefaultStyle;
    var j := 0;
    while j < n
      invariant 0 <= j <= n
      invariant Applied(format, fields, j) == Ok(style)
    {
      var a := AssignField(style, format[j], fields[j]);
      if a.Err? {
        AppliedKeepsFailure(format, fields, j + 1, n);
        return Err(a.error);
      }
      style := a.value;
      j := j + 1;
    }
    return Ok(Some(style));
  }

  /** A row written as `Style: ` and comma-free values decodes to the fold of those
      values under the format's names. */
  lemma StyleRow(format: seq<string>, values: seq<string>)
    requires |values| > 0 && forall v | v in values :: ',' !in v
    ensures StyleOf(StylePrefix + FormatLine.Joined(values, ","), format) ==
              var st :- Applied(format, values, Min(|format|, |values|)); Ok(Some(st))
  {
    var r := StylePrefix + FormatLine.Joined(values, ",");
    assert r[..7] == StylePrefix;
    assert r[7..] == FormatLine.Joined(values, ",");
    SplitJoined(values);
  }

  /** Values are not trimmed: a space after the comma makes `Fontsize` fail to parse,
      while the same value without it sets the size. */
  lemma SpacesAreKept()
    ensures Applied(["Name", "Fontsize"], ["Default", " 20"], 2).Err?
    ensures Applied(["Name", "Fontsize"], ["Default", "20"], 2) == Ok(DefaultStyle.(name := "Default", fontSize := 20))
  {
    assert FieldOf("Name") == Some(NameField);
    assert FieldOf("Fontsize") == Some(FontSizeField);
    assert ParseSigned(" 20", I8).None?;
    assert DigitsValue("20") == 20 by {
      assert "20"[..1] == "2";
    }
    assert ParseSigned("20", I8) == Some(20);
  }
}
