/** Properties of the type-name parser: what each conversion rejects, what it
    reads back from the names it is meant for, and the discrepancy listed under
    Findings. */
module TypeUtilsFacts {
  import opened Results
  import opened Strings
  import opened CompoundName
  import opened TypeUtils

  /** A non-empty run of decimal digits, as `std::to_string` writes a number. */
  predicate Number(ds: string) {
    |ds| > 0 && AllDigits(ds)
  }

  /** `NAME<precision,scale>`, the way decimal type names are written. */
  function DecimalName(kind: string, precision: string, scale: string): string {
    kind + "<" + precision + "," + scale + ">"
  }

  lemma NumberHasNoSyntax(ds: string)
    requires Number(ds)
    ensures '<' !in ds && '>' !in ds && ',' !in ds && ':' !in ds
  {
    forall i | 0 <= i < |ds| ensures IsDigit(ds[i]) {}
  }

  /** The first `c` of `pre + [c] + rest`, when `pre` holds none. */
  lemma FirstAfter(pre: string, c: char, rest: string)
    requires c !in pre
    ensures FindChar(pre + [c] + rest, c) == Some(|pre|)
  {
    assert pre + [c] + rest == pre + ([c] + rest);
    FindCharConcat(pre, [c] + rest, c);
  }

  lemma OpenOfDecimalName(kind: string, ps: string, ss: string)
    requires '<' !in kind
    ensures FindChar(DecimalName(kind, ps, ss), '<') == Some(|kind|)
  {
    assert DecimalName(kind, ps, ss) == kind + ['<'] + (ps + "," + ss + ">");
    FirstAfter(kind, '<', ps + "," + ss + ">");
  }

  lemma CommaOfDecimalName(kind: string, ps: string, ss: string)
    requires ',' !in kind && '<' != ',' && Number(ps)
    ensures FindChar(DecimalName(kind, ps, ss), ',') == Some(|kind| + 1 + |ps|)
  {
    NumberHasNoSyntax(ps);
    var pre := kind + "<" + ps;
    assert ',' !in pre by {
      assert forall i | 0 <= i < |pre| :: pre[i] != ',' by {
        forall i | 0 <= i < |pre| ensures pre[i] != ',' {
          if i < |kind| { assert pre[i] == kind[i]; }
          else if i > |kind| { assert pre[i] == ps[i - |kind| - 1]; }
        }
      }
    }
    assert DecimalName(kind, ps, ss) == pre + [','] + (ss + ">");
    FirstAfter(pre, ',', ss + ">");
  }

  lemma CloseOfDecimalName(kind: string, ps: string, ss: string)
    requires '>' !in kind && Number(ps) && Number(ss)
    ensures FindChar(DecimalName(kind, ps, ss), '>') == Some(|kind| + |ps| + |ss| + 2)
  {
    NumberHasNoSyntax(ps);
    NumberHasNoSyntax(ss);
    var pre := kind + "<" + ps + "," + ss;
    assert '>' !in pre by {
      forall i | 0 <= i < |pre| ensures pre[i] != '>' {
        if i < |kind| { assert pre[i] == kind[i]; }
        else if |kind| < i < |kind| + 1 + |ps| { assert pre[i] == ps[i - |kind| - 1]; }
        else if i > |kind| + 1 + |ps| { assert pre[i] == ss[i - |kind| - 2 - |ps|]; }
      }
    }
    assert DecimalName(kind, ps, ss) == pre + ['>'] + "";
    FirstAfter(pre, '>', "");
  }

  lemma LastCloseOfDecimalName(kind: string, ps: string, ss: string)
    ensures RFindChar(DecimalName(kind, ps, ss), '>') == Some(|kind| + |ps| + |ss| + 2)
  {
    var t := DecimalName(kind, ps, ss);
    RFindCharAt(t, '>', |t| - 1);
  }

  /** The text between the brackets of `NAME<p,s>` splits at its comma into `p` and `s`. */
  lemma DigitsPair(ps: string, ss: string)
    requires Number(ps) && Number(ss)
    ensures var body := ps + "," + ss;
      && FindChar(body, ',') == Some(|ps|)
      && Substr(body, 0, Some(|ps|)) == ps
      && Substr(body, |ps| + 1, Some(|body| - 1)) == ss
  {
    NumberHasNoSyntax(ps);
    var body := ps + "," + ss;
    assert body == ps + [','] + ss;
    FirstAfter(ps, ',', ss);
    assert body[..|ps|] == ps;
    assert body[|ps| + 1..] == ss;
  }

  /** The text `p,s` between the brackets reads as the two numbers. */
  lemma DecimalArgumentsOfDigits(body: string, ps: string, ss: string)
    requires body == ps + "," + ss && Number(ps) && Number(ss)
    ensures DecimalArguments(body) == Ok((DigitsValue(ps) as int, DigitsValue(ss) as int))
  {
    DigitsPair(ps, ss);
    StoiOfDigits(ps);
    StoiOfDigits(ss);
  }

  /** `getPrecisionAndScale` reads back the two numbers of `NAME<p,s>`. */
  lemma PrecisionAndScaleOfDecimalName(kind: string, ps: string, ss: string)
    requires '<' !in kind && Number(ps) && Number(ss)
    ensures PrecisionAndScale(DecimalName(kind, ps, ss)) == Ok((DigitsValue(ps) as int, DigitsValue(ss) as int))
  {
    var body := ps + "," + ss;
    DecimalBodyOfDecimalName(kind, ps, ss, body);
    DecimalArgumentsOfDigits(body, ps, ss);
  }

  /** `getPrecisionAndScale` reads `p,s` from between the brackets of `NAME<p,s>`. */
  lemma DecimalBodyOfDecimalName(kind: string, ps: string, ss: string, body: string)
    requires '<' !in kind && body == ps + "," + ss
    ensures DecimalBody(DecimalName(kind, ps, ss)) == Some(body)
  {
    var t := DecimalName(kind, ps, ss);
    OpenOfDecimalName(kind, ps, ss);
    LastCloseOfDecimalName(kind, ps, ss);
    DecimalNameParts(kind, ps, ss);
    SubstrBetween(t, |kind|, |t| - 1);
  }

  /** `getDecimalType` reads the numbers between the first `<` and the first
      `,`, and between that `,` and the first `>`. */
  lemma DecimalTypeAt(decimalType: string, open: nat, comma: nat, close: nat, ps: string, ss: string)
    requires FindChar(decimalType, '<') == Some(open)
    requires FindChar(decimalType, ',') == Some(comma)
    requires FindChar(decimalType, '>') == Some(close)
    requires open < comma < close
    requires decimalType[open + 1..comma] == ps && decimalType[comma + 1..close] == ss
    requires Number(ps) && Number(ss)
    ensures DecimalType(decimalType) == Ok(Decimal(DigitsValue(ps), DigitsValue(ss)))
  {
    var precisionStart := FindChar(decimalType, '<');
    var tokenIndex := FindChar(decimalType, ',');
    var scaleStart := FindChar(decimalType, '>');
    var precision := Substr(decimalType, After(precisionStart), SpanBetween(tokenIndex, precisionStart));
    var scale := Substr(decimalType, After(tokenIndex), SpanBetween(scaleStart, tokenIndex));
    assert precision == ps;
    assert scale == ss;
    StoiOfDigits(ps);
    StoiOfDigits(ss);
    assert ParseInt(Substr(decimalType, After(precisionStart), SpanBetween(tokenIndex, precisionStart)))
      == Ok(DigitsValue(ps) as int);
    assert ParseInt(Substr(decimalType, After(tokenIndex), SpanBetween(scaleStart, tokenIndex)))
      == Ok(DigitsValue(ss) as int);
  }

  /** `getDecimalType` reads back the two numbers of `dec<p,s>`. */
  lemma DecimalTypeOfDecimalName(kind: string, ps: string, ss: string)
    requires '<' !in kind && ',' !in kind && '>' !in kind && Number(ps) && Number(ss)
    ensures DecimalType(DecimalName(kind, ps, ss)) == Ok(Decimal(DigitsValue(ps), DigitsValue(ss)))
  {
    var t := DecimalName(kind, ps, ss);
    DecimalNamePunctuation(kind, ps, ss, t);
    DecimalTypeAt(t, |kind|, |kind| + 1 + |ps|, |kind| + |ps| + |ss| + 2, ps, ss);
  }

  /** Where `getDecimalType` finds the first `<`, `,` and `>` of `NAME<p,s>`,
      and the two numbers between them. */
  lemma DecimalNamePunctuation(kind: string, ps: string, ss: string, t: string)
    requires '<' !in kind && ',' !in kind && '>' !in kind && Number(ps) && Number(ss)
    requires t == DecimalName(kind, ps, ss)
    ensures FindChar(t, '<') == Some(|kind|)
    ensures FindChar(t, ',') == Some(|kind| + 1 + |ps|)
    ensures FindChar(t, '>') == Some(|kind| + |ps| + |ss| + 2)
    ensures t[|kind| + 1..|kind| + 1 + |ps|] == ps && t[|kind| + 2 + |ps|..|kind| + |ps| + |ss| + 2] == ss
  {
    OpenOfDecimalName(kind, ps, ss);
    CommaOfDecimalName(kind, ps, ss);
    CloseOfDecimalName(kind, ps, ss);
    DecimalNameParts(kind, ps, ss);
  }

  /** The two numbers of `NAME<p,s>`, as slices of it. */
  lemma DecimalNameParts(kind: string, ps: string, ss: string)
    ensures var t := DecimalName(kind, ps, ss);
      var comma := |kind| + 1 + |ps|;
      && |t| == |kind| + |ps| + |ss| + 3
      && t[|kind| + 1..comma] == ps
      && t[comma + 1..|t| - 1] == ss
      && t[|kind| + 1..|t| - 1] == ps + "," + ss
  {
  }

  /** The kind name of `KIND<...>` is `KIND`. */
  lemma KindNameOfCompound(kind: string, rest: string)
    requires '<' !in kind
    ensures NameBeforeDelimiter(kind + "<" + rest, "<") == kind
  {
    assert kind + "<" + rest == kind + ['<'] + rest;
    FirstAfter(kind, '<', rest);
    FindOneChar(kind + "<" + rest, '<');
  }

  /** `SHORT_DECIMAL<p,s>` becomes a decimal of that precision and scale. */
  lemma ShortDecimalIsDecimal(ps: string, ss: string, asLowerCase: bool)
    requires Number(ps) && Number(ss)
    ensures ToVeloxType(DecimalName("SHORT_DECIMAL", ps, ss), asLowerCase)
      == Ok(Decimal(DigitsValue(ps), DigitsValue(ss)))
  {
    KindNameOfCompound("SHORT_DECIMAL", ps + "," + ss + ">");
    assert DecimalName("SHORT_DECIMAL", ps, ss) == "SHORT_DECIMAL" + "<" + (ps + "," + ss + ">");
    PrecisionAndScaleOfDecimalName("SHORT_DECIMAL", ps, ss);
  }

  /** The kind names the table maps to the compound and decimal kinds. */
  lemma ArrayKindName()
    ensures MapNameToTypeKind("ARRAY") == Some(ArrayKind)
    ensures "ARRAY" != "DATE" && "ARRAY" != "SHORT_DECIMAL"
  {
  }

  lemma MapKindName()
    ensures MapNameToTypeKind("MAP") == Some(MapKind)
    ensures "MAP" != "DATE" && "MAP" != "SHORT_DECIMAL"
  {
  }

  lemma RowKindName()
    ensures MapNameToTypeKind("ROW") == Some(RowKind)
    ensures "ROW" != "DATE" && "ROW" != "SHORT_DECIMAL"
  {
  }

  lemma HugeIntKindName()
    ensures MapNameToTypeKind("HUGEINT") == Some(HugeIntKind)
    ensures "HUGEINT" != "DATE" && "HUGEINT" != "SHORT_DECIMAL"
  {
  }

  /** Any name of kind HUGEINT is read as a decimal. */
  lemma HugeIntKindIsDecimal(typeName: string, asLowerCase: bool)
    requires typeName != "" && NameBeforeDelimiter(typeName, "<") == "HUGEINT"
    ensures ToVeloxType(typeName, asLowerCase) == DecimalOf(PrecisionAndScale(typeName))
  {
    HugeIntKindName();
    ToVeloxTypeOfKind(typeName, "HUGEINT", HugeIntKind, asLowerCase);
    assert KindToVeloxType(HugeIntKind, typeName, asLowerCase) == DecimalOf(PrecisionAndScale(typeName));
  }

  /** `HUGEINT<p,s>` becomes a decimal of that precision and scale. */
  lemma HugeIntIsDecimal(ps: string, ss: string, asLowerCase: bool)
    requires Number(ps) && Number(ss)
    ensures ToVeloxType(DecimalName("HUGEINT", ps, ss), asLowerCase)
      == Ok(Decimal(DigitsValue(ps), DigitsValue(ss)))
  {
    var t := DecimalName("HUGEINT", ps, ss);
    KindNameOfCompound("HUGEINT", ps + "," + ss + ">");
    assert t == "HUGEINT" + "<" + (ps + "," + ss + ">");
    HugeIntKindIsDecimal(t, asLowerCase);
    PrecisionAndScaleOfDecimalName("HUGEINT", ps, ss);
  }

  /** An empty name is rejected. */
  lemma EmptyNameRejected(asLowerCase: bool)
    ensures ToVeloxType("", asLowerCase) == Err(EmptyTypeName)
  {
  }

  /** A kind name the table does not know is rejected with that name. */
  lemma UnknownKindRejected(typeName: string, asLowerCase: bool)
    requires typeName != ""
    requires var kindName := NameBeforeDelimiter(typeName, "<");
      kindName != "DATE" && kindName != "SHORT_DECIMAL" && MapNameToTypeKind(kindName).None?
    ensures ToVeloxType(typeName, asLowerCase) == Err(KindNotFound(NameBeforeDelimiter(typeName, "<")))
  {
  }

  /** An ARRAY whose brackets do not hold exactly one field is rejected. */
  lemma ArrayArityRejected(typeName: string, asLowerCase: bool)
    requires NameBeforeDelimiter(typeName, "<") == "ARRAY" && '<' in typeName
    requires |CompoundFields(typeName)| != 1
    ensures ToVeloxType(typeName, asLowerCase) == Err(ArraySize)
  {
    ArrayKindName();
    ToVeloxTypeOfKind(typeName, "ARRAY", ArrayKind, asLowerCase);
    ArrayKindArity(typeName, asLowerCase);
  }

  lemma ArrayKindArity(typeName: string, asLowerCase: bool)
    requires '<' in typeName && |CompoundFields(typeName)| != 1
    ensures KindToVeloxType(ArrayKind, typeName, asLowerCase) == Err(ArraySize)
  {
  }


  /** A MAP whose brackets do not hold exactly two fields is rejected. */
  lemma MapArityRejected(typeName: string, asLowerCase: bool)
    requires typeName != "" && NameBeforeDelimiter(typeName, "<") == "MAP"
    requires |CompoundFields(typeName)| != 2
    ensures ToVeloxType(typeName, asLowerCase) == Err(MapSize)
  {
    MapKindName();
    ToVeloxTypeOfKind(typeName, "MAP", MapKind, asLowerCase);
    MapKindArity(typeName, asLowerCase);
  }

  lemma MapKindArity(typeName: string, asLowerCase: bool)
    requires |CompoundFields(typeName)| != 2
    ensures KindToVeloxType(MapKind, typeName, asLowerCase) == Err(MapSize)
  {
  }

  /** An ARRAY with one field is the array of that field's type, or fails
      with the field's error. */
  lemma ArrayElement(typeName: string, asLowerCase: bool)
    requires NameBeforeDelimiter(typeName, "<") == "ARRAY" && '<' in typeName
    requires |CompoundFields(typeName)| == 1
    ensures var e := ToVeloxType(CompoundFields(typeName)[0], asLowerCase);
      ToVeloxType(typeName, asLowerCase) == if e.Ok? then Ok(Array(e.value)) else Err(e.error)
  {
    ArrayKindName();
    ToVeloxTypeOfKind(typeName, "ARRAY", ArrayKind, asLowerCase);
  }

  /** A MAP with two fields is the map from the first field's type to the
      second's; the key's error is reported before the value's. */
  lemma MapEntries(typeName: string, asLowerCase: bool)
    requires typeName != "" && NameBeforeDelimiter(typeName, "<") == "MAP"
    requires |CompoundFields(typeName)| == 2
    ensures var k := ToVeloxType(CompoundFields(typeName)[0], asLowerCase);
      var v := ToVeloxType(CompoundFields(typeName)[1], asLowerCase);
      ToVeloxType(typeName, asLowerCase)
        == if k.Err? then Err(k.error) else if v.Err? then Err(v.error) else Ok(Map(k.value, v.value))
  {
    MapKindName();
    ToVeloxTypeOfKind(typeName, "MAP", MapKind, asLowerCase);
  }

  /** A name without `<` is its own single field. */
  lemma PlainNameIsOneField(s: string)
    requires '<' !in s && '>' !in s && ',' !in s
    ensures CompoundFields(s) == [s]
  {
    assert CompoundBody(s) == s;
    CompoundFieldsRebuildBody(s);
    SplitPointsOfPlainBody(s);
    assert Join(CompoundFields(s)) == CompoundFields(s)[0];
  }

  lemma SplitPointsOfPlainBody(s: string)
    requires ',' !in s
    ensures TopCommas(s, 0, 0) == []
  {
    if |TopCommas(s, 0, 0)| > 0 {
      var x := TopCommas(s, 0, 0)[0];
      SplitPointsAtDepthZero(s, x);
    }
  }

  /** A bare name without brackets, commas or colons: its kind name, its only
      field and that field's type part are all the name itself. */
  lemma BareNameIsItsOwnField(name: string)
    requires '<' !in name && '>' !in name && ',' !in name && ':' !in name
    ensures NameBeforeDelimiter(name, "<") == name
    ensures CompoundFields(name) == [name]
    ensures FieldTypeName(name) == name
  {
    PlainKindName(name);
    PlainNameIsOneField(name);
  }

  /** As written, the ARRAY case on the bare name `ARRAY`, and the ROW case on
      `ROW`, split the name into the single field that is the name itself and
      convert that field: the same call again, without end. */
  lemma BareCompoundRecursesAsWritten(name: string)
    requires name == "ARRAY" || name == "ROW"
    ensures MapNameToTypeKind(name) == Some(if name == "ARRAY" then ArrayKind else RowKind)
    ensures NameBeforeDelimiter(name, "<") == name
    ensures CompoundFields(name) == [name] && FieldTypeName(name) == name
  {
    if name == "ARRAY" {
      assert MapNameToTypeKind("ARRAY") == Some(ArrayKind);
    } else {
      assert MapNameToTypeKind("ROW") == Some(RowKind);
    }
    BareNameIsItsOwnField(name);
  }

  /** The model rejects the bare names instead. */
  lemma BareCompoundRejected(name: string, asLowerCase: bool)
    requires name == "ARRAY" || name == "ROW"
    ensures ToVeloxType(name, asLowerCase) == Err(BareCompound(name))
  {
    PlainKindName(name);
    if name == "ARRAY" {
      ArrayKindName();
      ToVeloxTypeOfKind(name, name, ArrayKind, asLowerCase);
      BareKindRejected(ArrayKind, name, asLowerCase);
    } else {
      RowKindName();
      ToVeloxTypeOfKind(name, name, RowKind, asLowerCase);
      BareKindRejected(RowKind, name, asLowerCase);
    }
  }

  lemma BareKindRejected(kind: TypeKind, name: string, asLowerCase: bool)
    requires kind == ArrayKind || kind == RowKind
    requires '<' !in name
    ensures KindToVeloxType(kind, name, asLowerCase) == Err(BareCompound(name))
  {
  }

  /** `struct<>` holds nothing to read. */
  lemma EmptyStructRejected()
    ensures RowTypeOf("struct<>") == Err(RowTypeInfo)
  {
    var t := "struct<>";
    FindCharAt(t, '<', 6);
    RFindCharAt(t, '>', 7);
  }

  /** A first occurrence of `c` in `s` stays the first in `s + t`. */
  lemma FindCharExtend(s: string, t: string, c: char)
    requires FindChar(s, c).Some?
    ensures FindChar(s + t, c) == FindChar(s, c)
  {
    var i := FindChar(s, c).value;
    assert (s + t)[..i] == s[..i];
    FindCharAt(s + t, c, i);
  }

  /** How the loop of `getRowType` cuts `dec<p,s>`: the text before the comma
      mentions `dec`. */
  lemma DecFieldParts(ps: string, ss: string)
    ensures Contains(DecimalName("dec", ps, ss)[..4 + |ps|], "dec")
  {
    var field := DecimalName("dec", ps, ss);
    assert OccursAt(field[..4 + |ps|], "dec", 0);
  }

  /** Where the loop of `getRowType` finds the comma and the `>` in text that
      starts with `dec<p,s>`. */
  lemma DecimalNameAhead(ps: string, ss: string, tail: string, c: string)
    requires Number(ps) && Number(ss) && c == DecimalName("dec", ps, ss) + tail
    ensures DecimalFieldAt(c, 4 + |ps|, |ps| + |ss| + 5)
    ensures c[..|ps| + |ss| + 5] + ">" == DecimalName("dec", ps, ss)
    ensures |c| == |ps| + |ss| + 6 + |tail|
    ensures |tail| > 1 ==> c[|ps| + |ss| + 7..] == tail[1..]
  {
    var d := DecimalName("dec", ps, ss);
    var pos := 4 + |ps|;
    DecKind();
    CommaOfDecimalName("dec", ps, ss);
    CloseOfDecimalName("dec", ps, ss);
    FindCharExtend(d, tail, ',');
    FindCharExtend(d, tail, '>');
    DecFieldParts(ps, ss);
    assert c[..pos] == d[..pos];
  }

  lemma DecKind()
    ensures '<' !in "dec" && ',' !in "dec" && '>' !in "dec"
  {
  }

  /** A pass of the loop on text that starts with the field `dec<p,s>`: it reads
      the decimal, and the erase drops the `>` and whatever single character
      follows it, a comma or not. */
  lemma StructFieldOfDecimalName(ps: string, ss: string, tail: string)
    requires Number(ps) && Number(ss)
    ensures FindChar(DecimalName("dec", ps, ss) + tail, ',').Some?
    ensures DecimalField(DecimalName("dec", ps, ss) + tail)
    ensures StructField(DecimalName("dec", ps, ss) + tail).0 == Ok(Decimal(DigitsValue(ps), DigitsValue(ss)))
    ensures StructField(DecimalName("dec", ps, ss) + tail).1 == if |tail| <= 1 then [] else tail[1..]
  {
    var c := DecimalName("dec", ps, ss) + tail;
    DecimalNameAhead(ps, ss, tail, c);
    StructFieldOfDecimal(c, 4 + |ps|, |ps| + |ss| + 5, DecimalName("dec", ps, ss));
    DecKind();
    DecimalTypeOfDecimalName("dec", ps, ss);
    DecimalTailAfterName(ps, ss, tail, c);
  }

  lemma DecimalTailAfterName(ps: string, ss: string, tail: string, c: string)
    requires |c| == |ps| + |ss| + 6 + |tail|
    requires |tail| > 1 ==> c[|ps| + |ss| + 7..] == tail[1..]
    ensures DecimalTail(c, Some(|ps| + |ss| + 5)) == if |tail| <= 1 then [] else tail[1..]
  {
  }

  /** A decimal field ends the struct when at most one character follows it,
      and is otherwise followed by the fields after that character. */
  lemma DecimalFieldThen(ps: string, ss: string, tail: string)
    requires Number(ps) && Number(ss)
    ensures var dec := Decimal(DigitsValue(ps), DigitsValue(ss));
      StructChildren(DecimalName("dec", ps, ss) + tail)
        == if |tail| <= 1 then Ok([dec]) else Prepend([dec], StructChildren(tail[1..]))
  {
    StructFieldOfDecimalName(ps, ss, tail);
    StructChildrenStep(DecimalName("dec", ps, ss) + tail);
  }

  /** In particular `struct<dec<p,s>>`'s body reads as the one decimal. */
  lemma DecimalFieldLast(ps: string, ss: string)
    requires Number(ps) && Number(ss)
    ensures StructChildren(DecimalName("dec", ps, ss)) == Ok([Decimal(DigitsValue(ps), DigitsValue(ss))])
  {
    DecimalFieldThen(ps, ss, "");
    assert DecimalName("dec", ps, ss) + "" == DecimalName("dec", ps, ss);
  }

  /** The statement after the loop, as written, on the empty remainder. */
  lemma EmptyRemainderAsWritten()
    ensures StructChildrenAsWritten("") == Err(UnknownSubstraitType(""))
  {
    assert ParseSubstraitType("").None?;
  }

  /** As written, the same decimal field followed by at most one character
      leaves nothing to the statement after the loop, which fails on the empty
      string: every struct whose last field is a decimal is rejected. */
  lemma DecimalFieldThenAsWritten(ps: string, ss: string, tail: string)
    requires Number(ps) && Number(ss)
    ensures var dec := Decimal(DigitsValue(ps), DigitsValue(ss));
      StructChildrenAsWritten(DecimalName("dec", ps, ss) + tail)
        == if |tail| <= 1 then Err(UnknownSubstraitType("")) else Prepend([dec], StructChildrenAsWritten(tail[1..]))
  {
    StructFieldOfDecimalName(ps, ss, tail);
    StructChildrenAsWrittenStep(DecimalName("dec", ps, ss) + tail);
    EmptyRemainderAsWritten();
  }

  /** A field without a comma or `dec` is read by `substraitTypeToVeloxType`
      and erased with its comma, by the loop as written and corrected alike. */
  lemma PlainFieldThen(field: string, tail: string)
    requires ',' !in field && !Contains(field, "dec")
    ensures var t := SubstraitTypeToVeloxType(field);
      StructChildren(field + "," + tail) == if t.Err? then Err(t.error) else Prepend([t.value], StructChildren(tail))
    ensures var t := SubstraitTypeToVeloxType(field);
      StructChildrenAsWritten(field + "," + tail)
        == if t.Err? then Err(t.error) else Prepend([t.value], StructChildrenAsWritten(tail))
  {
    var c := field + "," + tail;
    PlainFieldAhead(field, tail);
    StructChildrenStep(c);
    StructChildrenAsWrittenStep(c);
  }

  lemma PlainFieldAhead(field: string, tail: string)
    requires ',' !in field && !Contains(field, "dec")
    ensures var c := field + "," + tail;
      && FindChar(c, ',') == Some(|field|) && c[..|field|] == field && c[|field| + 1..] == tail
  {
    var c := field + "," + tail;
    assert c == field + [','] + tail;
    FirstAfter(field, ',', tail);
  }

  /** Fields without commas or `dec`, joined by commas, read as
      `substraitTypeToVeloxType` of each in order, or the first error. */
  lemma {:induction false} StructChildrenOfPlainFields(fields: seq<string>)
    requires |fields| >= 1
    requires forall i :: 0 <= i < |fields| ==> ',' !in fields[i] && !Contains(fields[i], "dec")
    ensures StructChildren(Join(fields)) == MapAll(SubstraitTypeToVeloxType, fields)
  {
    if |fields| == 1 {
      StructChildrenLast(fields[0]);
      assert fields[1..] == [];
      var t := SubstraitTypeToVeloxType(fields[0]);
      if t.Ok? {
        assert [t.value] + [] == [t.value];
      }
    } else {
      StructChildrenOfPlainFields(fields[1..]);
      PlainFieldThen(fields[0], Join(fields[1..]));
    }
  }

  lemma I32HasNoDec()
    ensures !Contains("i32", "dec")
  {
    assert "i32"[0..3][0] != "dec"[0];
  }

  lemma TenAndTwo()
    ensures Number("10") && Number("2") && DigitsValue("10") == 10 && DigitsValue("2") == 2
  {
    assert "10"[..1] == "1";
    assert "1"[..0] == "";
    assert "2"[..0] == "";
  }

  lemma I32IsInteger()
    ensures SubstraitTypeToVeloxType("i32") == Ok(Integer)
  {
    assert ParseSubstraitType("i32") == Some("INTEGER");
  }

  /** The body of `struct<i32,dec<10,2>>` as the corrected loop reads it: an
      integer, then a decimal. */
  lemma IntAndDecimalStruct()
    ensures StructChildren("i32" + "," + DecimalName("dec", "10", "2")) == Ok([Integer, Decimal(10, 2)])
  {
    TenAndTwo();
    I32HasNoDec();
    I32IsInteger();
    PlainFieldThen("i32", DecimalName("dec", "10", "2"));
    DecimalFieldLast("10", "2");
    assert [Integer] + [Decimal(10, 2)] == [Integer, Decimal(10, 2)];
  }

  /** The same body as the loop is written: rejected. */
  lemma IntAndDecimalStructAsWritten()
    ensures StructChildrenAsWritten("i32" + "," + DecimalName("dec", "10", "2")) == Err(UnknownSubstraitType(""))
  {
    TenAndTwo();
    I32HasNoDec();
    I32IsInteger();
    PlainFieldThen("i32", DecimalName("dec", "10", "2"));
    DecimalFieldThenAsWritten("10", "2", "");
    assert DecimalName("dec", "10", "2") + "" == DecimalName("dec", "10", "2");
  }

  /** A converted ROW has one child and one name per field of its name: field
      `k` named by `FieldName`, and child `k` the conversion of field `k`'s
      type part. */
  lemma RowFieldNames(typeName: string, asLowerCase: bool)
    requires typeName != "" && NameBeforeDelimiter(typeName, "<") == "ROW" && '<' in typeName
    requires ToVeloxType(typeName, asLowerCase).Ok?
    ensures var r := ToVeloxType(typeName, asLowerCase).value;
      var fields := CompoundFields(typeName);
      && r.Row?
      && |r.children| == |r.names| == |fields|
      && (forall k :: 0 <= k < |fields| ==> r.names[k] == FieldName(fields[k], k, asLowerCase))
      && (forall k :: 0 <= k < |fields| ==>
            FieldType(fields[k], asLowerCase).Ok? && r.children[k] == FieldType(fields[k], asLowerCase).value)
  {
    RowKindName();
    ToVeloxTypeOfKind(typeName, "ROW", RowKind, asLowerCase);
    RowKindNames(typeName, asLowerCase);
    RowKindTypes(typeName, asLowerCase);
  }

  lemma RowKindNames(typeName: string, asLowerCase: bool)
    requires '<' in typeName && KindToVeloxType(RowKind, typeName, asLowerCase).Ok?
    ensures var r := KindToVeloxType(RowKind, typeName, asLowerCase).value;
      r.Row? && r.names == RowNames(CompoundFields(typeName), asLowerCase)
      && |r.children| == |CompoundFields(typeName)|
  {
    RowKindOfRowTypes(typeName, asLowerCase);
  }

  /** The ROW case with `<` succeeds exactly when the type part of every field
      converts; its children are then those types in order, and otherwise its
      error is that of the first field that does not convert. */
  lemma RowKindTypes(typeName: string, asLowerCase: bool)
    requires '<' in typeName
    ensures var fields := CompoundFields(typeName);
      var r := KindToVeloxType(RowKind, typeName, asLowerCase);
      && (r.Ok? <==> forall k :: 0 <= k < |fields| ==> FieldType(fields[k], asLowerCase).Ok?)
      && (r.Ok? ==> r.value.Row? && forall k :: 0 <= k < |fields| ==> r.value.children[k] == FieldType(fields[k], asLowerCase).value)
      && (r.Err? ==> exists k :: 0 <= k < |fields| && FieldType(fields[k], asLowerCase) == Err(r.error))
  {
    var fields := CompoundFields(typeName);
    var m := MapAll(ConvertField(asLowerCase), fields[0..]);
    RowKindOfRowTypes(typeName, asLowerCase);
    RowTypesEach(|typeName|, fields, 0, asLowerCase);
    FieldTypesEach(fields, asLowerCase);
    var r := KindToVeloxType(RowKind, typeName, asLowerCase);
    if m.Ok? {
      assert r == Ok(Row(RowNames(fields, asLowerCase), m.value));
    } else {
      assert r == Err(m.error);
    }
  }

  /** The ROW case with `<`: the field names, with the types `RowTypes` gives,
      or its error. */
  lemma RowKindOfRowTypes(typeName: string, asLowerCase: bool)
    requires '<' in typeName
    ensures var fields := CompoundFields(typeName);
      var m := RowTypes(|typeName|, fields, 0, asLowerCase);
      KindToVeloxType(RowKind, typeName, asLowerCase)
        == if m.Err? then Err(m.error) else Ok(Row(RowNames(fields, asLowerCase), m.value))
  {
  }

  lemma FieldTypesEach(fields: seq<string>, asLowerCase: bool)
    ensures var m := MapAll(ConvertField(asLowerCase), fields[0..]);
      && (m.Ok? <==> forall k :: 0 <= k < |fields| ==> FieldType(fields[k], asLowerCase).Ok?)
      && (m.Ok? ==> forall k :: 0 <= k < |fields| ==> m.value[k] == FieldType(fields[k], asLowerCase).value)
      && (m.Err? ==> exists k :: 0 <= k < |fields| && FieldType(fields[k], asLowerCase) == Err(m.error))
  {
    assert fields[0..] == fields;
    MapAllEach(ConvertField(asLowerCase), fields);
    forall k | 0 <= k < |fields|
      ensures ConvertField(asLowerCase)(fields[k]) == FieldType(fields[k], asLowerCase)
    {
    }
  }

  /** A field written `type:name` is converted from `type` and named `name`
      (lower-cased when asked), whatever colons `type` holds. */
  lemma NamedField(ty: string, name: string, idx: nat, asLowerCase: bool)
    requires ':' !in name
    ensures FieldTypeName(ty + ":" + name) == ty
    ensures FieldName(ty + ":" + name, idx, asLowerCase) == if asLowerCase then LowerAscii(name) else name
  {
    var field := ty + ":" + name;
    RFindCharAt(field, ':', |ty|);
    assert field[..|ty|] == ty;
    assert field[|ty| + 1..] == name;
  }

  /** A field without a colon is converted whole and named `col_<idx>`. */
  lemma UnnamedField(field: string, idx: nat, asLowerCase: bool)
    requires ':' !in field
    ensures FieldTypeName(field) == field
    ensures FieldName(field, idx, asLowerCase) == "col_" + NatToString(idx)
  {
  }
}
