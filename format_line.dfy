/** `parse_format`: splits a `Format:` declaration line into its field names. */
module FormatLine {
  import opened Errors

  /** Puts `p` in front of the fields of a successful result; an error passes through. */
  function Prepend<T>(p: seq<T>, r: Result<seq<T>>): Result<seq<T>> {
    if r.Ok? then Ok(p + r.value) else r
  }

  /** Both loops of `parse_format`, from a field that starts at `st` with the scan at `i`.
      A comma closes the field `r[st..i]`; one space after it is skipped; the scan stops
      without a push when the next field starts on, or the scan reaches, the last byte.
      Reading past the end (a comma or `, ` at the very end) is an out-of-range read.
      With `keepLast` the text of the final field is pushed too (the evidently intended
      behaviour); `parse_format` itself runs with `keepLast == false`. */
  function Scan(r: string, st: nat, i: nat, keepLast: bool): (fs: Result<seq<string>>)
    requires st <= i <= |r|
    requires forall k | st <= k < i :: r[k] != ','
    decreases |r| - i
    ensures fs.Ok? ==> forall f | f in fs.value :: ',' !in f
  {
    if i == |r| then Err(StructureInvalid)
    else if r[i] == ',' then
      var field := r[st..i];
      if i + 1 >= |r| then Err(StructureInvalid)
      else
        var j := if r[i + 1] == ' ' then i + 2 else i + 1;
        if j == |r| - 1 && !keepLast then Ok([field])
        else Prepend([field], Scan(r, j, j, keepLast))
    else if i == |r| - 1 then Ok(if keepLast then [r[st..]] else [])
    else Scan(r, st, i + 1, keepLast)
  }

  /** The field list `parse_format` returns for line `r`, or the failure it panics with:
      the line must begin with `Format` (the two bytes after it are skipped unread), and
      reading byte 8 of a shorter line is out of range. */
  function FormatFields(r: string): (fs: Result<seq<string>>)
    ensures fs.Ok? ==> |r| > 8 && r[..6] == "Format"
    ensures fs.Ok? ==> forall f | f in fs.value :: ',' !in f
  {
    if |r| < 6 || r[..6] != "Format" || |r| <= 8 then Err(StructureInvalid)
    else Scan(r, 8, 8, false)
  }

  /** `parse_format` with the last declared field kept. */
  function FormatFieldsIntended(r: string): (fs: Result<seq<string>>)
    ensures fs.Ok? ==> |r| > 8 && r[..6] == "Format"
    ensures fs.Ok? ==> forall f | f in fs.value :: ',' !in f
  {
    if |r| < 6 || r[..6] != "Format" || |r| <= 8 then Err(StructureInvalid)
    else Scan(r, 8, 8, true)
  }

  /** Prefixing twice is prefixing once with both. */
  lemma PrependTwice<T>(p: seq<T>, q: seq<T>, x: Result<seq<T>>)
    ensures Prepend(p, Prepend(q, x)) == Prepend(p + q, x)
  {
    if x.Ok? {
      assert p + (q + x.value) == (p + q) + x.value;
    }
  }

  /** Field names joined by a separator. */
  function Joined(names: seq<string>, sep: string): string
    requires |names| > 0
  {
    if |names| == 1 then names[0] else names[0] + sep + Joined(names[1..], sep)
  }

  /** Names a declaration line can carry and get back: no commas, no leading space,
      and a non-empty last name. */
  predicate ValidNames(names: seq<string>) {
    && |names| > 0
    && names[|names| - 1] != []
    && forall n | n in names :: ',' !in n && (n == [] || n[0] != ' ')
  }

  /** The two separators in use: SSA's `,` and ASS's `, `. */
  predicate IsSeparator(sep: string) {
    sep == "," || sep == ", "
  }

  /** A declaration line for the given names. */
  function DeclarationLine(names: seq<string>, sep: string): string
    requires |names| > 0
  {
    "Format: " + Joined(names, sep)
  }

  /** Running over bytes that are not commas changes nothing. */
  lemma {:induction false} ScanSkips(r: string, st: nat, i: nat, j: nat, keepLast: bool)
    requires st <= i <= j < |r|
    requires forall k | st <= k < j :: r[k] != ','
    ensures Scan(r, st, i, keepLast) == Scan(r, st, j, keepLast)
    decreases j - i
  {
    if i < j {
      ScanSkips(r, st, i + 1, j, keepLast);
    }
  }

  /** A joined list of valid names is non-empty and does not start with a space. */
  lemma {:induction false} JoinedHead(names: seq<string>, sep: string)
    requires ValidNames(names) && IsSeparator(sep)
    ensures |Joined(names, sep)| >= |names|
    ensures Joined(names, sep)[0] != ' '
    ensures |names| > 1 ==> |Joined(names, sep)| >= 2
    decreases |names|
  {
    assert names[0] in names;
    if |names| > 1 {
      assert ValidNames(names[1..]) by {
        forall n | n in names[1..] ensures n in names { }
      }
      JoinedHead(names[1..], sep);
    }
  }

  /** Scanning the final name of a joined list. */
  lemma ScanLastName(pre: string, name: string, keepLast: bool)
    requires name != [] && ',' !in name
    ensures Scan(pre + name, |pre|, |pre|, keepLast) == Ok(if keepLast then [name] else [])
  {
    var r := pre + name;
    var s := |pre|;
    forall k | s <= k < |r| ensures r[k] != ',' {
      assert r[k] == name[k - s];
    }
    ScanSkips(r, s, s, |r| - 1, keepLast);
    assert r[s..] == name;
  }

  /** Scanning a name followed by a separator and more text: the name is pushed and
      the scan resumes right after the separator. */
  lemma ScanOneName(pre: string, name: string, sep: string, tail: string, keepLast: bool)
    requires ',' !in name && IsSeparator(sep)
    requires tail != [] && (sep == "," ==> tail[0] != ' ')
    ensures var r := pre + name + sep + tail;
            var j := |pre| + |name| + |sep|;
            Scan(r, |pre|, |pre|, keepLast)
            == if j == |r| - 1 && !keepLast then Ok([name])
               else Prepend([name], Scan(r, j, j, keepLast))
  {
    var r := pre + name + sep + tail;
    var s := |pre|;
    var c := s + |name|;
    forall k | s <= k < c ensures r[k] != ',' {
      assert r[k] == name[k - s];
    }
    ScanSkips(r, s, s, c, keepLast);
    assert r[c] == ',';
    assert r[s..c] == name;
    assert r[c + 1] == (if sep == ", " then ' ' else tail[0]);
  }

  /** The text before a list of two or more names, followed by the list, is that text
      and the first name and the separator, followed by the rest of the list. */
  lemma JoinedCons(pre: string, names: seq<string>, sep: string)
    requires |names| > 1
    ensures pre + Joined(names, sep) == pre + names[0] + sep + Joined(names[1..], sep)
  {
  }

  /** A list of two or more names is its first name before the rest, with or without
      the last name. */
  lemma ConsParts(names: seq<string>)
    requires |names| > 1
    ensures names == [names[0]] + names[1..]
    ensures names[..|names| - 1] == [names[0]] + names[1..][..|names| - 2]
  {
  }

  /** Scanning a name, a separator and a further list, given the scan of that list. */
  lemma ScanCons(pre: string, n0: string, rest: seq<string>, sep: string, keepLast: bool)
    requires ',' !in n0 && ValidNames(rest) && IsSeparator(sep)
    requires var pre' := pre + n0 + sep;
             Scan(pre' + Joined(rest, sep), |pre'|, |pre'|, keepLast)
             == Ok(if keepLast then rest else rest[..|rest| - 1])
    ensures Scan(pre + n0 + sep + Joined(rest, sep), |pre|, |pre|, keepLast)
            == Ok(if keepLast then [n0] + rest else [n0] + rest[..|rest| - 1])
  {
    JoinedHead(rest, sep);
    var tail := Joined(rest, sep);
    ScanOneName(pre, n0, sep, tail, keepLast);
    var j := |pre + n0 + sep|;
    if j == |pre + n0 + sep + tail| - 1 && !keepLast {
      assert |rest| == 1;
      assert [n0] + rest[..|rest| - 1] == [n0];
    } else {
      assert j == |pre| + |n0| + |sep|;
    }
  }

  /** Scanning a list of two or more names, given the scan of the list without its
      first name. */
  lemma ScanList(pre: string, names: seq<string>, sep: string, keepLast: bool)
    requires |names| > 1 && ',' !in names[0] && ValidNames(names[1..]) && IsSeparator(sep)
    requires var pre' := pre + names[0] + sep;
             var rest := names[1..];
             Scan(pre' + Joined(rest, sep), |pre'|, |pre'|, keepLast)
             == Ok(if keepLast then rest else rest[..|rest| - 1])
    ensures Scan(pre + Joined(names, sep), |pre|, |pre|, keepLast)
            == Ok(if keepLast then names else names[..|names| - 1])
  {
    ScanCons(pre, names[0], names[1..], sep, keepLast);
    JoinedCons(pre, names, sep);
    ConsParts(names);
  }

  /** Scanning a joined list from its first byte yields the names, without the last
      one unless `keepLast`. */
  lemma {:induction false} ScanJoined(pre: string, names: seq<string>, sep: string, keepLast: bool)
    requires ValidNames(names) && IsSeparator(sep)
    ensures Scan(pre + Joined(names, sep), |pre|, |pre|, keepLast)
            == Ok(if keepLast then names else names[..|names| - 1])
    decreases |names|
  {
    var n0 := names[0];
    assert n0 in names;
    if |names| == 1 {
      ScanLastName(pre, n0, keepLast);
      assert names == [n0] && names[..0] == [];
    } else {
      var rest := names[1..];
      assert ValidNames(rest) by {
        forall n | n in rest ensures n in names { }
      }
      ScanJoined(pre + n0 + sep, rest, sep, keepLast);
      ScanList(pre, names, sep, keepLast);
    }
  }

  /** `parse_format` on a declaration line returns every declared name but the last,
      in order. */
  lemma FormatAsWrittenDropsLast(names: seq<string>, sep: string)
    requires ValidNames(names) && IsSeparator(sep)
    ensures FormatFields(DeclarationLine(names, sep)) == Ok(names[..|names| - 1])
  {
    JoinedHead(names, sep);
    ScanJoined("Format: ", names, sep, false);
  }

  /** With the last field kept, a declaration line gives back exactly its names. */
  lemma FormatIntendedRoundTrip(names: seq<string>, sep: string)
    requires ValidNames(names) && IsSeparator(sep)
    ensures FormatFieldsIntended(DeclarationLine(names, sep)) == Ok(names)
  {
    JoinedHead(names, sep);
    ScanJoined("Format: ", names, sep, true);
  }

  /** The scan reads nothing before `m`: two lines that agree from `m` on scan alike. */
  lemma {:induction false} ScanSameTail(r: string, r': string, m: nat, st: nat, i: nat, keepLast: bool)
    requires |r| == |r'| && m <= st <= i <= |r|
    requires forall k | m <= k < |r| :: r[k] == r'[k]
    requires forall k | st <= k < i :: r[k] != ','
    ensures Scan(r', st, i, keepLast) == Scan(r, st, i, keepLast)
    decreases |r| - i
  {
    if i < |r| {
      if r[i] == ',' {
        assert r'[st..i] == r[st..i];
        if i + 1 < |r| {
          var j := if r[i + 1] == ' ' then i + 2 else i + 1;
          if j < |r| {
            ScanSameTail(r, r', m, j, j, keepLast);
          }
        }
      } else if i == |r| - 1 {
        assert r'[st..] == r[st..];
      } else {
        ScanSameTail(r, r', m, st, i + 1, keepLast);
      }
    }
  }

  /** Bytes 6 and 7 of the line (the `: ` after `Format`) are skipped unread. */
  lemma FormatIgnoresBytes6And7(r: string, x: char, y: char)
    requires |r| > 8
    ensures FormatFields(r[..6] + [x, y] + r[8..]) == FormatFields(r)
  {
    var r' := r[..6] + [x, y] + r[8..];
    assert r'[..6] == r[..6];
    forall k | 8 <= k < |r| ensures r[k] == r'[k] {
      assert r'[k] == r[8..][k - 8];
    }
    ScanSameTail(r, r', 8, 8, 8, false);
  }

  /** Only one space after a comma is skipped: a second one starts the next field. */
  lemma SecondSpaceKept()
    ensures FormatFields("Format: a,  b, c") == Ok(["a", " b"])
  {
    var r := "Format: a,  b, c";
    assert r[..6] == "Format";
    ScanOneName("Format: a, ", " b", ", ", "c", false);
    assert "Format: a, " + " b" + ", " + "c" == r;
    assert Scan(r, 11, 11, false) == Ok([" b"]);
    ScanOneName("Format: ", "a", ", ", " b, c", false);
    assert "Format: " + "a" + ", " + " b, c" == r;
    assert Scan(r, 8, 8, false) == Prepend(["a"], Ok([" b"]));
    assert ["a"] + [" b"] == ["a", " b"];
  }

  /** `,` and `, ` separators give identical field lists. */
  lemma SeparatorsAgree(names: seq<string>)
    requires ValidNames(names)
    ensures FormatFields(DeclarationLine(names, ",")) == FormatFields(DeclarationLine(names, ", "))
  {
    FormatAsWrittenDropsLast(names, ",");
    FormatAsWrittenDropsLast(names, ", ");
  }

  /** A name followed by a separator at the very end of the line: the scan reads past
      the end, just after the comma or, past its space, at the next field. */
  lemma ScanTrailingSeparator(pre: string, name: string, sep: string, keepLast: bool)
    requires ',' !in name && IsSeparator(sep)
    ensures Scan(pre + name + sep, |pre|, |pre|, keepLast).Err?
  {
    var r := pre + name + sep;
    var s := |pre|;
    var c := s + |name|;
    forall k | s <= k < c ensures r[k] != ',' {
      assert r[k] == name[k - s];
    }
    ScanSkips(r, s, s, c, keepLast);
    assert r[c] == ',';
    if sep == ", " {
      assert r[c + 1] == ' ' && c + 2 == |r|;
    }
  }

  /** A joined list of names followed by a separator does not scan. */
  lemma {:induction false} ScanJoinedTrailing(pre: string, names: seq<string>, sep: string, keepLast: bool)
    requires ValidNames(names) && IsSeparator(sep)
    ensures Scan(pre + Joined(names, sep) + sep, |pre|, |pre|, keepLast).Err?
    decreases |names|
  {
    var n0 := names[0];
    assert n0 in names;
    if |names| == 1 {
      ScanTrailingSeparator(pre, n0, sep, keepLast);
    } else {
      var rest := names[1..];
      assert ValidNames(rest) by {
        forall n | n in rest ensures n in names { }
      }
      JoinedHead(rest, sep);
      var tail := Joined(rest, sep) + sep;
      JoinedCons(pre, names, sep);
      assert pre + Joined(names, sep) + sep == pre + n0 + sep + tail;
      ScanOneName(pre, n0, sep, tail, keepLast);
      var pre' := pre + n0 + sep;
      ScanJoinedTrailing(pre', rest, sep, keepLast);
      assert pre' + Joined(rest, sep) + sep == pre + n0 + sep + tail;
    }
  }

  /** A declaration line that ends in a separator makes `parse_format` fail. */
  lemma FormatTrailingSeparator(names: seq<string>, sep: string)
    requires ValidNames(names) && IsSeparator(sep)
    ensures FormatFields(DeclarationLine(names, sep) + sep).Err?
  {
    JoinedHead(names, sep);
    ScanJoinedTrailing("Format: ", names, sep, false);
    assert DeclarationLine(names, sep) + sep == "Format: " + Joined(names, sep) + sep;
  }

  /** An empty last field after a comma is not read: the scan stops on the last byte
      before it could fail, so `Format: a,,` gives `a`. */
  lemma EmptyLastFieldAccepted()
    ensures FormatFields("Format: a,,") == Ok(["a"])
  {
    var r := "Format: a,,";
    assert r[..6] == "Format";
    assert r[8] == 'a' && r[9] == ',' && r[10] == ',';
    assert r[8..9] == "a";
  }

  /** `parse_format`, with its two loops. */
  method ParseFormat(r: string) returns (res: Result<seq<string>>)
    ensures res == FormatFields(r)
  {
    if |r| < 6 || r[0..6] != "Format" {
      return Err(StructureInvalid);
    }
    var i := 8;
    var p: seq<string> := [];
    if i >= |r| {
      return Err(StructureInvalid);
    }
    assert r[..6] == r[0..6];
    assert Prepend(p, Scan(r, i, i, false)) == Scan(r, i, i, false) by {
      if Scan(r, i, i, false).Ok? {
        assert p + Scan(r, i, i, false).value == Scan(r, i, i, false).value;
      }
    }
    // loop until end of line
    while true
      invariant 8 <= i < |r|
      invariant FormatFields(r) == Prepend(p, Scan(r, i, i, false))
      decreases |r| - i
    {
      var st := i;
      // one field
      while true
        invariant st <= i < |r|
        invariant forall k | st <= k < i :: r[k] != ','
        invariant FormatFields(r) == Prepend(p, Scan(r, st, i, false))
        decreases |r| - i
      {
        if r[i] == ',' {
          if i + 1 >= |r| {
            return Err(StructureInvalid);
          }
          var field := r[st..i];
          ghost var q := p;
          ghost var before := Scan(r, st, i, false);
          p := p + [field];
          i := i + 1;
          if r[i] == ' ' {
            i := i + 1;
          }
          if i != |r| - 1 {
            PrependTwice(q, [field], Scan(r, i, i, false));
          } else {
            assert before == Ok([field]);
          }
          break;
        } else if i == |r| - 1 {
          assert Scan(r, st, i, false) == Ok([]);
          assert p + [] == p;
          break;
        } else {
          i := i + 1;
        }
      }
      if i == |r| - 1 {
        break;
      }
      if i >= |r| {
        return Err(StructureInvalid);
      }
    }
    return Ok(p);
  }
}
