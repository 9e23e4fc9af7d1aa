/** The type-name parser of cpp/velox/substrait/TypeUtils.cc: Velox type names such as
    `ARRAY<BIGINT>`, `MAP<BIGINT,DOUBLE>`, `ROW<BIGINT:a,DOUBLE>` or
    `SHORT_DECIMAL<10,2>`, and function-signature type names such as `i32`,
    `dec<10,2>` and `struct<i32,dec<10,2>,i64>`, become a type tree. */
module TypeUtils {
  import opened Results
  import opened Strings
  import opened CompoundName

  /** The Velox type tree the parser builds. */
  datatype VType =
    | Boolean | TinyInt | SmallInt | Integer | BigInt | Real | Double
    | Varchar | Varbinary | Timestamp | Date | Unknown
    | Decimal(precision: int, scale: int)
    | Array(element: VType)
    | Map(key: VType, value: VType)
    | Row(names: seq<string>, children: seq<VType>)

  /** Velox's `TypeKind`. `FunctionKind`, `OpaqueKind` and `InvalidKind` are
      kinds that have a name but no case in `toVeloxType`. */
  datatype TypeKind =
    | BooleanKind | TinyIntKind | SmallIntKind | IntegerKind | BigIntKind | HugeIntKind
    | RealKind | DoubleKind | VarcharKind | VarbinaryKind | TimestampKind
    | ArrayKind | MapKind | RowKind | UnknownKind
    | FunctionKind | OpaqueKind | InvalidKind

  /** `mapNameToTypeKind`: Velox's table from kind names to kinds; an unknown
      name is an error. */
  function MapNameToTypeKind(name: string): Option<TypeKind> {
    match name
    case "BOOLEAN" => Some(BooleanKind)
    case "TINYINT" => Some(TinyIntKind)
    case "SMALLINT" => Some(SmallIntKind)
    case "INTEGER" => Some(IntegerKind)
    case "BIGINT" => Some(BigIntKind)
    case "HUGEINT" => Some(HugeIntKind)
    case "REAL" => Some(RealKind)
    case "DOUBLE" => Some(DoubleKind)
    case "VARCHAR" => Some(VarcharKind)
    case "VARBINARY" => Some(VarbinaryKind)
    case "TIMESTAMP" => Some(TimestampKind)
    case "ARRAY" => Some(ArrayKind)
    case "MAP" => Some(MapKind)
    case "ROW" => Some(RowKind)
    case "UNKNOWN" => Some(UnknownKind)
    case "FUNCTION" => Some(FunctionKind)
    case "OPAQUE" => Some(OpaqueKind)
    case "INVALID" => Some(InvalidKind)
    case _ => None
  }

  /** `SubstraitParser::parseType` on a signature type name: the table from
      Substrait short names to Velox type names. */
  function ParseSubstraitType(name: string): Option<string> {
    match name
    case "bool" => Some("BOOLEAN")
    case "i8" => Some("TINYINT")
    case "i16" => Some("SMALLINT")
    case "i32" => Some("INTEGER")
    case "i64" => Some("BIGINT")
    case "fp32" => Some("REAL")
    case "fp64" => Some("DOUBLE")
    case "str" => Some("VARCHAR")
    case "vbin" => Some("VARBINARY")
    case "date" => Some("DATE")
    case "ts" => Some("TIMESTAMP")
    case _ => None
  }

  /** The exceptions the conversions throw, one per check of the source. */
  datatype TypeError =
    | EmptyTypeName              // toVeloxType on an empty name
    | KindNotFound(name: string) // mapNameToTypeKind on an unknown name
    | ArraySize                  // ARRAY with other than one field
    | MapSize                    // MAP with other than two fields
    | EmptyRow                   // ROW without fields
    | NotSupported(typeName: string) // a kind without a case in toVeloxType
    | BareCompound(typeName: string) // ARRAY or ROW without `<` (see Findings)
    | InvalidDecimal             // getPrecisionAndScale without `<` or `>`
    | InvalidNumber              // std::stoi without a digit: std::invalid_argument
    | UnknownSubstraitType(name: string) // SubstraitParser::parseType on an unknown name
    | RowTypeInfo                // getRowType when the `size_t` gap from `<` to `>` is at most one
    | DecimalScale               // getRowType: a decimal field whose `>` comes before its `,`

  /** The outcome of a conversion: a value or the exception it throws. */
  type Outcome<T> = Result<T, TypeError>

  /** `std::stoi`, failing with `std::invalid_argument`. */
  function ParseInt(s: string): (r: Outcome<int>)
    ensures r.Ok? <==> Stoi(s).Some?
    ensures r.Ok? ==> r.value == Stoi(s).value
  {
    match Stoi(s)
    case None => Err(InvalidNumber)
    case Some(n) => Ok(n)
  }

  /** `getNameBeforeDelimiter`: the text before the first occurrence of
      `delimiter`, or all of `compoundName` when it does not occur. */
  function NameBeforeDelimiter(compoundName: string, delimiter: string): (r: string)
    ensures |r| <= |compoundName| && r == compoundName[..|r|]
    ensures Contains(compoundName, delimiter) ==>
      OccursAt(compoundName, delimiter, |r|) &&
      forall j :: 0 <= j < |r| ==> !OccursAt(compoundName, delimiter, j)
    ensures !Contains(compoundName, delimiter) ==> r == compoundName
  {
    match Find(compoundName, delimiter)
    case None => compoundName
    case Some(pos) => compoundName[..pos]
  }

  /** `getPrecisionAndScale`: the two integers of `NAME<precision,scale>`. */
  function PrecisionAndScale(typeName: string): (r: Outcome<(int, int)>)
    ensures FindChar(typeName, '<').None? || RFindChar(typeName, '>').None? ==> r == Err(InvalidDecimal)
  {
    match DecimalBody(typeName)
    case None => Err(InvalidDecimal)
    case Some(body) => DecimalArguments(body)
  }

  /** The text `getPrecisionAndScale` reads: `substr(start + 1, end - start - 1)`
      between the first `<` and the last `>`, or `None` when either is missing. */
  function DecimalBody(typeName: string): (r: Option<string>)
    ensures r.None? <==> FindChar(typeName, '<').None? || RFindChar(typeName, '>').None?
  {
    var start := FindChar(typeName, '<');
    var end := RFindChar(typeName, '>');
    if start.None? || end.None? then None
    else Some(Substr(typeName, start.value + 1, SpanBetween(end, start)))
  }

  /** The `p,s` text between the brackets of a decimal name, read as two numbers. */
  function DecimalArguments(decimalType: string): Outcome<(int, int)> {
    var tokenPos := FindChar(decimalType, ',');
    var precision :- ParseInt(Substr(decimalType, 0, tokenPos));
    // `decimalType.length() - 1` wraps around for an empty `decimalType`
    var scale :- ParseInt(Substr(decimalType, After(tokenPos),
                             if |decimalType| >= 1 then Some(|decimalType| - 1) else None));
    Ok((precision, scale))
  }

  function DecimalOf(ps: Outcome<(int, int)>): (r: Outcome<VType>)
    ensures ps.Ok? ==> r == Ok(Decimal(ps.value.0, ps.value.1))
    ensures ps.Err? ==> r == Err(ps.error)
  {
    var (p, s) :- ps;
    Ok(Decimal(p, s))
  }

  /** `"col_" + std::to_string(idx)`. */
  function ColumnName(idx: nat): string {
    "col_" + NatToString(idx)
  }

  /** The name a ROW field gets: `col_<idx>` without a `:`, else the text after
      the last `:`, lower-cased when asked. */
  function FieldName(field: string, idx: nat, asLowerCase: bool): (name: string)
    ensures ':' !in field ==> name == ColumnName(idx)
    ensures ':' in field ==> ':' !in name
    ensures ':' in field && !asLowerCase ==> field == FieldTypeName(field) + ":" + name
  {
    match RFindChar(field, ':')
    case None => ColumnName(idx)
    case Some(pos) => if asLowerCase then LowerAscii(field[pos + 1..]) else field[pos + 1..]
  }

  /** The type part of a ROW field: all of it without a `:`, else the text
      before the last `:`. */
  function FieldTypeName(field: string): (r: string)
    ensures |r| <= |field|
    ensures ':' !in field ==> r == field
    ensures ':' in field ==> |r| < |field| && field[..|r|] == r && field[|r|] == ':' && ':' !in field[|r| + 1..]
  {
    match RFindChar(field, ':')
    case None => field
    case Some(pos) => field[..pos]
  }

  /** The type `t` is of kind `kind`: a kind with one fixed type is that type,
      HUGEINT is a decimal, and a compound kind is its compound type. */
  predicate OfKind(t: VType, kind: TypeKind) {
    match kind
    case HugeIntKind => t.Decimal?
    case ArrayKind => t.Array?
    case MapKind => t.Map?
    case RowKind => t.Row? && |t.names| == |t.children| >= 1
    case _ => KindType(kind) == Some(t)
  }

  /** The kind name before the first `<` names the type a successful conversion
      yields: DATE a date, SHORT_DECIMAL a decimal, and any other kind name the
      table maps to a kind a type of that kind. */
  predicate NamesType(kindName: string, t: VType) {
    if kindName == "DATE" then t == Date
    else if kindName == "SHORT_DECIMAL" then t.Decimal?
    else MapNameToTypeKind(kindName).Some? && OfKind(t, MapNameToTypeKind(kindName).value)
  }

  /** `toVeloxType`. The ARRAY and ROW cases reject a name without `<`, on which
      the original recurses on its own input without end (see Findings). */
  function ToVeloxType(typeName: string, asLowerCase: bool): (r: Outcome<VType>)
    decreases |typeName|, 2
  {
    if |typeName| == 0 then Err(EmptyTypeName)
    else
      var kindName := NameBeforeDelimiter(typeName, "<");
      if kindName == "DATE" then Ok(Date)
      else if kindName == "SHORT_DECIMAL" then DecimalOf(PrecisionAndScale(typeName))
      else
        match MapNameToTypeKind(kindName)
        case None => Err(KindNotFound(kindName))
        case Some(kind) => KindToVeloxType(kind, typeName, asLowerCase)
  }

  /** The `switch` of `toVeloxType` on the kind its name maps to. */
  function KindToVeloxType(kind: TypeKind, typeName: string, asLowerCase: bool): (r: Outcome<VType>)
    ensures r.Ok? ==> OfKind(r.value, kind)
    ensures (kind == ArrayKind || kind == RowKind) && '<' !in typeName ==> r == Err(BareCompound(typeName))
    decreases |typeName|, 1
  {
    match kind
    case HugeIntKind => DecimalOf(PrecisionAndScale(typeName))
    case ArrayKind =>
      if '<' !in typeName then Err(BareCompound(typeName))
      else
        var fieldTypes := CompoundFields(typeName);
        if |fieldTypes| != 1 then Err(ArraySize)
        else
          var element :- ToVeloxType(fieldTypes[0], asLowerCase);
          Ok(Array(element))
    case MapKind =>
      var fieldTypes := CompoundFields(typeName);
      if |fieldTypes| != 2 then Err(MapSize)
      else
        var keyType :- ToVeloxType(fieldTypes[0], asLowerCase);
        var valueType :- ToVeloxType(fieldTypes[1], asLowerCase);
        Ok(Map(keyType, valueType))
    case RowKind =>
      if '<' !in typeName then Err(BareCompound(typeName))
      else
        var fieldTypes := CompoundFields(typeName);
        if |fieldTypes| == 0 then Err(EmptyRow)
        else
          var types :- RowTypes(|typeName|, fieldTypes, 0, asLowerCase);
          Ok(Row(RowNames(fieldTypes, asLowerCase), types))
    case _ =>
      match KindType(kind)
      case Some(t) => Ok(t)
      case None => Err(NotSupported(typeName))
  }
  /** What `toVeloxType` yields is named by its kind name: an empty name, and a
      kind name that neither names DATE or SHORT_DECIMAL nor is in the table,
      are errors; a success has the type the kind name names. */
  lemma ToVeloxTypeNamesType(typeName: string, asLowerCase: bool)
    ensures typeName == "" ==> ToVeloxType(typeName, asLowerCase) == Err(EmptyTypeName)
    ensures var kindName := NameBeforeDelimiter(typeName, "<");
      typeName != "" && kindName != "DATE" && kindName != "SHORT_DECIMAL" && MapNameToTypeKind(kindName).None?
      ==> ToVeloxType(typeName, asLowerCase) == Err(KindNotFound(kindName))
    ensures var r := ToVeloxType(typeName, asLowerCase);
      r.Ok? ==> typeName != "" && NamesType(NameBeforeDelimiter(typeName, "<"), r.value)
  {
  }


  /** A name whose kind name the table maps to `kind` is converted by the
      `switch` on `kind`. */
  lemma ToVeloxTypeOfKind(typeName: string, kindName: string, kind: TypeKind, asLowerCase: bool)
    requires typeName != "" && NameBeforeDelimiter(typeName, "<") == kindName
    requires kindName != "DATE" && kindName != "SHORT_DECIMAL"
    requires MapNameToTypeKind(kindName) == Some(kind)
    ensures ToVeloxType(typeName, asLowerCase) == KindToVeloxType(kind, typeName, asLowerCase)
  {
  }

  /** The cases of `toVeloxType` that map a kind to one fixed type. */
  function KindType(kind: TypeKind): Option<VType> {
    match kind
    case BooleanKind => Some(Boolean)
    case TinyIntKind => Some(TinyInt)
    case SmallIntKind => Some(SmallInt)
    case IntegerKind => Some(Integer)
    case BigIntKind => Some(BigInt)
    case RealKind => Some(Real)
    case DoubleKind => Some(Double)
    case VarcharKind => Some(Varchar)
    case VarbinaryKind => Some(Varbinary)
    case TimestampKind => Some(Timestamp)
    case UnknownKind => Some(Unknown)
    case _ => None
  }

  /** The types the loop of the ROW case converts, from field `idx` on: the
      type part of each field converted in order, or the first error. */
  function RowTypes(bound: nat, fieldTypes: seq<string>, idx: nat, asLowerCase: bool): (r: Outcome<seq<VType>>)
    requires idx <= |fieldTypes|
    requires forall k :: 0 <= k < |fieldTypes| ==> |fieldTypes[k]| < bound
    ensures r.Ok? ==> |r.value| == |fieldTypes| - idx
    decreases bound, 0, |fieldTypes| - idx
  {
    if idx == |fieldTypes| then Ok([])
    else
      var t :- FieldType(fieldTypes[idx], asLowerCase);
      var rest :- RowTypes(bound, fieldTypes, idx + 1, asLowerCase);
      Ok([t] + rest)
  }

  /** The conversion the ROW case applies to each field: `toVeloxType` of its
      type part. */
  function FieldType(field: string, asLowerCase: bool): Outcome<VType>
    decreases |field|, 3
  {
    ToVeloxType(FieldTypeName(field), asLowerCase)
  }

  function ConvertField(asLowerCase: bool): string -> Outcome<VType> {
    field => FieldType(field, asLowerCase)
  }

  /** The loop of the ROW case converts the fields from `idx` on in order and
      stops at the first failure: by `MapAllEach`, it succeeds exactly when
      every field converts, child `k` is field `k`'s type, and a failure is that
      of the first field that does not convert. */
  lemma {:induction false} RowTypesEach(bound: nat, fieldTypes: seq<string>, idx: nat, asLowerCase: bool)
    requires idx <= |fieldTypes|
    requires forall k :: 0 <= k < |fieldTypes| ==> |fieldTypes[k]| < bound
    ensures RowTypes(bound, fieldTypes, idx, asLowerCase) == MapAll(ConvertField(asLowerCase), fieldTypes[idx..])
    decreases |fieldTypes| - idx
  {
    if idx < |fieldTypes| {
      RowTypesEach(bound, fieldTypes, idx + 1, asLowerCase);
      RowTypesEachStep(bound, fieldTypes, idx, asLowerCase);
    } else {
      RowTypesEachEnd(bound, fieldTypes, asLowerCase);
    }
  }

  lemma RowTypesEachEnd(bound: nat, fieldTypes: seq<string>, asLowerCase: bool)
    requires forall k :: 0 <= k < |fieldTypes| ==> |fieldTypes[k]| < bound
    ensures RowTypes(bound, fieldTypes, |fieldTypes|, asLowerCase) == MapAll(ConvertField(asLowerCase), fieldTypes[|fieldTypes|..])
  {
    assert fieldTypes[|fieldTypes|..] == [];
  }

  lemma RowTypesEachStep(bound: nat, fieldTypes: seq<string>, idx: nat, asLowerCase: bool)
    requires idx < |fieldTypes|
    requires forall k :: 0 <= k < |fieldTypes| ==> |fieldTypes[k]| < bound
    requires RowTypes(bound, fieldTypes, idx + 1, asLowerCase) == MapAll(ConvertField(asLowerCase), fieldTypes[idx + 1..])
    ensures RowTypes(bound, fieldTypes, idx, asLowerCase) == MapAll(ConvertField(asLowerCase), fieldTypes[idx..])
  {
    RowTypesStep(bound, fieldTypes, idx, asLowerCase);
    MapAllStep(ConvertField(asLowerCase), fieldTypes[idx..]);
    assert fieldTypes[idx..][1..] == fieldTypes[idx + 1..];
  }

  /** One step of `MapAll`. */
  lemma MapAllStep<A, B, E>(f: A -> Result<B, E>, xs: seq<A>)
    requires |xs| > 0
    ensures MapAll(f, xs)
         == if f(xs[0]).Err? then Err(f(xs[0]).error)
            else match MapAll(f, xs[1..])
                 case Err(e) => Err(e)
                 case Ok(ys) => Ok([f(xs[0]).value] + ys)
  {
  }

  /** The names the loop of the ROW case gives: one per field, field `k` named
      by `FieldName`, that is `col_<k>` without a `:`, else the text after its
      last `:`. */
  function RowNames(fieldTypes: seq<string>, asLowerCase: bool): (names: seq<string>)
    ensures |names| == |fieldTypes|
    ensures forall k :: 0 <= k < |fieldTypes| ==> names[k] == FieldName(fieldTypes[k], k, asLowerCase)
  {
    if |fieldTypes| == 0 then []
    else
      var n := |fieldTypes| - 1;
      RowNames(fieldTypes[..n], asLowerCase) + [FieldName(fieldTypes[n], n, asLowerCase)]
  }

  /** The for loop of the ROW case: converts each field's type part and names
      it, appending both in field order. */
  method ReadRowFields(bound: nat, fieldTypes: seq<string>, asLowerCase: bool)
    returns (types: Outcome<seq<VType>>, names: seq<string>)
    requires forall k :: 0 <= k < |fieldTypes| ==> |fieldTypes[k]| < bound
    ensures types == RowTypes(bound, fieldTypes, 0, asLowerCase)
    ensures types.Ok? ==> names == RowNames(fieldTypes, asLowerCase)
  {
    var done: seq<VType> := [];
    names := [];
    PrependNothing(RowTypes(bound, fieldTypes, 0, asLowerCase));
    for idx := 0 to |fieldTypes|
      invariant Prepend(done, RowTypes(bound, fieldTypes, idx, asLowerCase)) == RowTypes(bound, fieldTypes, 0, asLowerCase)
      invariant names == RowNames(fieldTypes[..idx], asLowerCase)
    {
      var fieldTypeAndName := fieldTypes[idx];
      var pos := RFindChar(fieldTypeAndName, ':');
      var typeStr, fieldName;
      if pos.None? {
        typeStr := fieldTypeAndName;
        fieldName := ColumnName(idx);
      } else {
        typeStr := fieldTypeAndName[..pos.value];
        fieldName := fieldTypeAndName[pos.value + 1..];
        if asLowerCase {
          fieldName := LowerAscii(fieldName);
        }
      }
      var t := ToVeloxType(typeStr, asLowerCase);
      RowTypesStep(bound, fieldTypes, idx, asLowerCase);
      if t.Err? {
        return Err(t.error), names;
      }
      PrependTwice(done, t.value, RowTypes(bound, fieldTypes, idx + 1, asLowerCase));
      done := done + [t.value];
      RowNamesStep(fieldTypes, idx, asLowerCase);
      names := names + [fieldName];
    }
    assert done + [] == done;
    assert fieldTypes[..|fieldTypes|] == fieldTypes;
    return Ok(done), names;
  }

  lemma RowTypesStep(bound: nat, fieldTypes: seq<string>, idx: nat, asLowerCase: bool)
    requires idx < |fieldTypes|
    requires forall k :: 0 <= k < |fieldTypes| ==> |fieldTypes[k]| < bound
    ensures var t := ToVeloxType(FieldTypeName(fieldTypes[idx]), asLowerCase);
      RowTypes(bound, fieldTypes, idx, asLowerCase)
        == if t.Err? then Err(t.error) else Prepend([t.value], RowTypes(bound, fieldTypes, idx + 1, asLowerCase))
  {
  }

  lemma RowNamesStep(fieldTypes: seq<string>, idx: nat, asLowerCase: bool)
    requires idx < |fieldTypes|
    ensures RowNames(fieldTypes[..idx + 1], asLowerCase)
      == RowNames(fieldTypes[..idx], asLowerCase) + [FieldName(fieldTypes[idx], idx, asLowerCase)]
  {
    assert fieldTypes[..idx + 1][..idx] == fieldTypes[..idx];
  }

  /** A type without precision, scale or children. */
  predicate Scalar(t: VType) {
    !(t.Decimal? || t.Array? || t.Map? || t.Row?)
  }

  /** `toVeloxType` on the Velox names `parseType` yields: each is a plain kind
      name with one fixed type (`ScalarTypeIsToVeloxType`). */
  function ScalarType(veloxName: string): Outcome<VType> {
    match veloxName
    case "BOOLEAN" => Ok(Boolean)
    case "TINYINT" => Ok(TinyInt)
    case "SMALLINT" => Ok(SmallInt)
    case "INTEGER" => Ok(Integer)
    case "BIGINT" => Ok(BigInt)
    case "REAL" => Ok(Real)
    case "DOUBLE" => Ok(Double)
    case "VARCHAR" => Ok(Varchar)
    case "VARBINARY" => Ok(Varbinary)
    case "DATE" => Ok(Date)
    case "TIMESTAMP" => Ok(Timestamp)
    case _ => Err(KindNotFound(veloxName))
  }

  /** `substraitTypeToVeloxType` on a signature type name: `parseType`, then
      `toVeloxType` (`SubstraitTypeToVeloxTypeIsToVeloxType`). */
  function SubstraitTypeToVeloxType(substraitType: string): (r: Outcome<VType>)
    ensures r.Ok? <==> ParseSubstraitType(substraitType).Some?
    ensures r.Err? ==> r.error == UnknownSubstraitType(substraitType)
    ensures r.Ok? ==> Scalar(r.value)
  {
    match ParseSubstraitType(substraitType)
    case None => Err(UnknownSubstraitType(substraitType))
    case Some(veloxName) => ScalarType(veloxName)
  }

  /** A name without `<` is its own kind name. */
  lemma PlainKindName(name: string)
    requires '<' !in name
    ensures NameBeforeDelimiter(name, "<") == name
  {
    FindOneChar(name, '<');
  }

  lemma ScalarTypeIsToVeloxType(veloxName: string)
    requires ScalarType(veloxName).Ok?
    ensures ScalarType(veloxName) == ToVeloxType(veloxName, false)
  {
    ScalarTypeKind(veloxName);
    if veloxName == "DATE" {
      PlainKindName(veloxName);
    } else {
      KindNameConverts(veloxName, MapNameToTypeKind(veloxName).value);
    }
  }

  /** The names `ScalarType` converts are plain kind names, each with the type
      `toVeloxType` gives its kind. */
  lemma ScalarTypeKind(veloxName: string)
    requires ScalarType(veloxName).Ok?
    ensures veloxName != "" && '<' !in veloxName && veloxName != "SHORT_DECIMAL"
    ensures veloxName == "DATE" || (MapNameToTypeKind(veloxName).Some? &&
      KindType(MapNameToTypeKind(veloxName).value) == Some(ScalarType(veloxName).value))
  {
    match veloxName
    case "BOOLEAN" =>
    case "TINYINT" =>
    case "SMALLINT" =>
    case "INTEGER" =>
    case "BIGINT" =>
    case "REAL" =>
    case "DOUBLE" =>
    case "VARCHAR" =>
    case "VARBINARY" =>
    case "DATE" =>
    case "TIMESTAMP" =>
  }

  /** A plain name of a kind with one fixed type converts to that type. */
  lemma KindNameConverts(name: string, kind: TypeKind)
    requires name != "" && '<' !in name && name != "DATE" && name != "SHORT_DECIMAL"
    requires MapNameToTypeKind(name) == Some(kind) && KindType(kind).Some?
    ensures ToVeloxType(name, false) == Ok(KindType(kind).value)
  {
    PlainKindName(name);
  }

  /** Every name the parser yields is one `ScalarType` converts. */
  lemma ParsedNamesAreScalar(substraitType: string)
    requires ParseSubstraitType(substraitType).Some?
    ensures ScalarType(ParseSubstraitType(substraitType).value).Ok?
  {
  }

  /** Converting a Substrait short name is `toVeloxType` on the Velox name the
      parser gives it; a name the parser does not know is an error. */
  lemma SubstraitTypeToVeloxTypeIsToVeloxType(substraitType: string)
    ensures ParseSubstraitType(substraitType).None? ==> SubstraitTypeToVeloxType(substraitType).Err?
    ensures ParseSubstraitType(substraitType).Some? ==>
      SubstraitTypeToVeloxType(substraitType) == ToVeloxType(ParseSubstraitType(substraitType).value, false)
  {
    if ParseSubstraitType(substraitType).Some? {
      ParsedNamesAreScalar(substraitType);
      ScalarTypeIsToVeloxType(ParseSubstraitType(substraitType).value);
    }
  }

  /** `getDecimalType`: precision from between the first `<` and the first `,`,
      scale from between that `,` and the first `>`; any of the three may be
      missing, with `npos` arithmetic deciding which text is read. */
  function DecimalType(decimalType: string): (r: Outcome<VType>)
    ensures r.Ok? ==> r.value.Decimal?
  {
    var precisionStart := FindChar(decimalType, '<');
    var tokenIndex := FindChar(decimalType, ',');
    var scaleStart := FindChar(decimalType, '>');
    var precision :- ParseInt(Substr(decimalType, After(precisionStart), SpanBetween(tokenIndex, precisionStart)));
    var scale :- ParseInt(Substr(decimalType, After(tokenIndex), SpanBetween(scaleStart, tokenIndex)));
    Ok(Decimal(precision, scale))
  }

  /** The `size_t` test `hi - lo > 1` of `getRowType`, either side possibly `npos`. */
  predicate GapAboveOne(hi: Option<nat>, lo: Option<nat>) {
    match (hi, lo)
    case (Some(h), Some(l)) => h < l || h - l > 1
    case (Some(h), None) => h >= 1
    case (None, Some(_)) => true
    case (None, None) => false
  }

  /** `GapAboveOne` is the `size_t` test `hi - lo > 1`. */
  lemma GapAboveOneIsSizeT(hi: Option<nat>, lo: Option<nat>)
    requires Position(hi) && Position(lo)
    ensures GapAboveOne(hi, lo) <==> (SizeValue(hi) - SizeValue(lo)) % SizeRange > 1
  {
    var d := SizeValue(hi) - SizeValue(lo);
    if hi.Some? && lo.Some? && hi.value < lo.value {
      assert d % SizeRange == d + SizeRange;
    } else if hi.Some? && lo.None? {
      assert d % SizeRange == hi.value + 1;
    }
  }

  /** Prepends the types already produced to the outcome of the rest of the loop. */
  function Prepend(done: seq<VType>, rest: Outcome<seq<VType>>): (r: Outcome<seq<VType>>)
    ensures rest.Err? ==> r == rest
    ensures rest.Ok? ==> r == Ok(done + rest.value)
  {
    match rest
    case Err(e) => Err(e)
    case Ok(ts) => Ok(done + ts)
  }

  /** One pass of the while loop of `getRowType`: the field before the first `,`
      and what is left of `childrenTypes` after the erase. A field that mentions
      `dec` is read with `getDecimalType` up to the first `>` and erased through
      one character past it; any other field is a Substrait type name. */
  function StructField(childrenTypes: string): (r: (Outcome<VType>, string))
    requires FindChar(childrenTypes, ',').Some?
    ensures |r.1| < |childrenTypes|
  {
    var pos := FindChar(childrenTypes, ',').value;
    var typeStr := childrenTypes[..pos];
    if Contains(typeStr, "dec") then
      var endPos := FindChar(childrenTypes, '>');
      if endPos.Some? && endPos.value < pos + 1 then (Err(DecimalScale), childrenTypes[1..])
      else
        var decimalStr := typeStr + Substr(childrenTypes, pos, DecimalSpan(endPos, pos)) + ">";
        (DecimalType(decimalStr), DecimalTail(childrenTypes, endPos))
    else
      (SubstraitTypeToVeloxType(typeStr), childrenTypes[pos + 1..])
  }

  /** The first `,` of `childrenTypes` is at `pos`, the text before it mentions
      `dec`, and the first `>` is at `close`, past that comma. */
  predicate DecimalFieldAt(childrenTypes: string, pos: nat, close: nat)
  {
    && FindChar(childrenTypes, ',') == Some(pos) && FindChar(childrenTypes, '>') == Some(close)
    && pos < close && Contains(childrenTypes[..pos], "dec")
  }

  /** A pass of the loop on a field that mentions `dec`, whose first `>` lies
      past the comma: it reads the text up to that `>`, and the `>`, as a
      decimal, and erases one more character. */
  lemma StructFieldOfDecimal(childrenTypes: string, pos: nat, close: nat, decimalStr: string)
    requires DecimalFieldAt(childrenTypes, pos, close)
    requires decimalStr == childrenTypes[..close] + ">"
    ensures StructField(childrenTypes).0 == DecimalType(decimalStr)
    ensures StructField(childrenTypes).1 == DecimalTail(childrenTypes, Some(close))
  {
    assert Substr(childrenTypes, pos, DecimalSpan(Some(close), pos)) == childrenTypes[pos..close];
    assert childrenTypes[..pos] + childrenTypes[pos..close] == childrenTypes[..close];
  }

  /** The field before the first `,` of `childrenTypes` mentions `dec`, so the
      loop reads it as a decimal. */
  predicate DecimalField(childrenTypes: string)
    requires FindChar(childrenTypes, ',').Some?
  {
    Contains(childrenTypes[..FindChar(childrenTypes, ',').value], "dec")
  }

  /** The while loop of `getRowType` from the current `childrenTypes` on: each
      field before a `,` as `StructField` reads it, then the text after the last
      `,` as a Substrait type name; the first error ends the loop. A decimal
      field whose erase leaves nothing is the last field (corrected, see
      Findings: as written, the empty remainder is converted and fails). */
  function StructChildren(childrenTypes: string): (r: Outcome<seq<VType>>)
    ensures r.Ok? ==> |r.value| >= 1
    decreases |childrenTypes|
  {
    if FindChar(childrenTypes, ',').None? then
      var t :- SubstraitTypeToVeloxType(childrenTypes);
      Ok([t])
    else
      var (field, rest) := StructField(childrenTypes);
      var t :- field;
      if DecimalField(childrenTypes) && rest == [] then Ok([t])
      else
        var ts :- StructChildren(rest);
        Ok([t] + ts)
  }

  /** The same loop as the source writes it: after a decimal field it goes on
      with whatever the erase has left, and when that is nothing, the statement
      after the loop converts the empty string (see Findings). */
  function StructChildrenAsWritten(childrenTypes: string): (r: Outcome<seq<VType>>)
    ensures r.Ok? ==> |r.value| >= 1
    decreases |childrenTypes|
  {
    if FindChar(childrenTypes, ',').None? then
      var t :- SubstraitTypeToVeloxType(childrenTypes);
      Ok([t])
    else
      var (field, rest) := StructField(childrenTypes);
      var t :- field;
      var ts :- StructChildrenAsWritten(rest);
      Ok([t] + ts)
  }

  /** `childrenTypes.erase(0, endPos + 2)`: with `endPos == npos` the count wraps to 1. */
  function DecimalTail(childrenTypes: string, endPos: Option<nat>): (r: string)
    requires |childrenTypes| > 0
    ensures |r| < |childrenTypes| && r == childrenTypes[|childrenTypes| - |r|..]
    ensures endPos.Some? && endPos.value + 2 <= |childrenTypes| ==> |r| == |childrenTypes| - endPos.value - 2
  {
    match endPos
    case None => childrenTypes[1..]
    case Some(e) => if e + 2 <= |childrenTypes| then childrenTypes[e + 2..] else []
  }

  /** The names `getRowType` gives its fields: `n` empty strings. */
  function EmptyNames(n: nat): (names: seq<string>)
    ensures |names| == n && forall i :: 0 <= i < n ==> names[i] == ""
  {
    if n == 0 then [] else EmptyNames(n - 1) + [""]
  }

  /** `getRowType`: the text between the first `<` and the last `>` of
      `struct<...>`, read by the loop above; every field name is empty. */
  function RowTypeOf(structType: string): (r: Outcome<VType>)
    ensures !GapAboveOne(RFindChar(structType, '>'), FindChar(structType, '<')) ==> r == Err(RowTypeInfo)
    ensures r.Ok? ==> r.value.Row? && |r.value.children| >= 1 && |r.value.names| == |r.value.children|
    ensures r.Ok? ==> forall i :: 0 <= i < |r.value.names| ==> r.value.names[i] == ""
  {
    var structStart := FindChar(structType, '<');
    var structEnd := RFindChar(structType, '>');
    if !GapAboveOne(structEnd, structStart) then
      Err(RowTypeInfo)
    else
      var childrenTypes := Substr(structType, After(structStart), SpanBetween(structEnd, structStart));
      var types :- StructChildren(childrenTypes);
      Ok(Row(EmptyNames(|types|), types))
  }

  /** The count `endPos - pos` of `childrenTypes.substr(pos, endPos - pos)`; with
      `endPos == npos` it reaches the end of the string. */
  function DecimalSpan(endPos: Option<nat>, pos: nat): (r: Option<nat>)
    requires endPos.Some? ==> endPos.value >= pos
  {
    match endPos
    case None => None
    case Some(e) => Some(e - pos)
  }

  /** The struct reader `getRowType`: a loop that erases each field it has read
      from the front of `childrenTypes`, with a decimal field that ends the body
      read as the last field (see Findings). */
  method GetRowType(structType: string) returns (r: Outcome<VType>)
    ensures r == RowTypeOf(structType)
  {
    var structStart := FindChar(structType, '<');
    var structEnd := RFindChar(structType, '>');
    if !GapAboveOne(structEnd, structStart) {
      return Err(RowTypeInfo);
    }
    var childrenTypes := Substr(structType, After(structStart), SpanBetween(structEnd, structStart));
    RowTypeOfChildren(structType, childrenTypes);
    var types, names := ReadStructFields(childrenTypes);
    if types.Err? {
      return Err(types.error);
    }
    return Ok(Row(names, types.value));
  }

  /** The loop of `getRowType`: every field of `childrenTypes` in order, each with
      the empty name. */
  method ReadStructFields(childrenTypes: string) returns (r: Outcome<seq<VType>>, names: seq<string>)
    ensures r == StructChildren(childrenTypes)
    ensures r.Ok? ==> names == EmptyNames(|r.value|)
  {
    ghost var all := StructChildren(childrenTypes);
    var rest := childrenTypes;
    var types: seq<VType> := [];
    names := [];
    PrependNothing(all);
    while FindChar(rest, ',').Some?
      invariant Prepend(types, StructChildren(rest)) == all
      invariant names == EmptyNames(|types|)
      decreases |rest|
    {
      var t, tail, last := ReadStructField(rest);
      if t.Err? {
        return Err(t.error), names;
      }
      PrependTwice(types, t.value, StructChildren(tail));
      types := types + [t.value];
      names := names + [""];
      if last {
        // the decimal field was the last one
        return Ok(types), names;
      }
      rest := tail;
    }
    var t := ReadLastField(rest);
    if t.Err? {
      return Err(t.error), names;
    }
    types := types + [t.value];
    names := names + [""];
    return Ok(types), names;
  }

  /** The body of the while loop of `getRowType`: the field before the first
      `,` and the text the erase leaves; `last` when the field was a decimal
      that the erase left nothing after. */
  method ReadStructField(childrenTypes: string) returns (t: Outcome<VType>, rest: string, last: bool)
    requires FindChar(childrenTypes, ',').Some?
    ensures |rest| < |childrenTypes|
    ensures t.Err? ==> StructChildren(childrenTypes) == Err(t.error)
    ensures t.Ok? && last ==> StructChildren(childrenTypes) == Ok([t.value])
    ensures t.Ok? && !last ==> StructChildren(childrenTypes) == Prepend([t.value], StructChildren(rest))
  {
    var pos := FindChar(childrenTypes, ',').value;
    var typeStr := childrenTypes[..pos];
    StructChildrenStep(childrenTypes);
    if Contains(typeStr, "dec") {
      var endPos := FindChar(childrenTypes, '>');
      if endPos.Some? && endPos.value < pos + 1 {
        return Err(DecimalScale), childrenTypes[1..], false;
      }
      var decimalStr := typeStr + Substr(childrenTypes, pos, DecimalSpan(endPos, pos)) + ">";
      t := DecimalType(decimalStr);
      rest := DecimalTail(childrenTypes, endPos);
      last := rest == [];
    } else {
      t := SubstraitTypeToVeloxType(typeStr);
      rest := childrenTypes[pos + 1..];
      last := false;
    }
  }

  /** The statement after the loop of `getRowType`: the text left is the last field. */
  method ReadLastField(childrenTypes: string) returns (t: Outcome<VType>)
    requires FindChar(childrenTypes, ',').None?
    ensures t.Err? ==> StructChildren(childrenTypes) == Err(t.error)
    ensures t.Ok? ==> StructChildren(childrenTypes) == Ok([t.value])
  {
    t := SubstraitTypeToVeloxType(childrenTypes);
    StructChildrenLast(childrenTypes);
  }

  lemma StructChildrenStep(childrenTypes: string)
    requires FindChar(childrenTypes, ',').Some?
    ensures var (t, rest) := StructField(childrenTypes);
      StructChildren(childrenTypes) ==
        if t.Err? then Err(t.error)
        else if DecimalField(childrenTypes) && rest == [] then Ok([t.value])
        else Prepend([t.value], StructChildren(rest))
  {
  }

  lemma StructChildrenAsWrittenStep(childrenTypes: string)
    requires FindChar(childrenTypes, ',').Some?
    ensures var (t, rest) := StructField(childrenTypes);
      StructChildrenAsWritten(childrenTypes) ==
        if t.Err? then Err(t.error) else Prepend([t.value], StructChildrenAsWritten(rest))
  {
  }

  lemma StructChildrenLast(childrenTypes: string)
    requires FindChar(childrenTypes, ',').None?
    ensures var t := SubstraitTypeToVeloxType(childrenTypes);
      StructChildren(childrenTypes) == if t.Err? then Err(t.error) else Ok([t.value])
  {
  }

  lemma RowTypeOfChildren(structType: string, childrenTypes: string)
    requires GapAboveOne(RFindChar(structType, '>'), FindChar(structType, '<'))
    requires childrenTypes == Substr(structType, After(FindChar(structType, '<')),
                                     SpanBetween(RFindChar(structType, '>'), FindChar(structType, '<')))
    ensures var all := StructChildren(childrenTypes);
      RowTypeOf(structType) == if all.Err? then Err(all.error) else Ok(Row(EmptyNames(|all.value|), all.value))
  {
  }

  lemma PrependNothing(rest: Outcome<seq<VType>>)
    ensures Prepend([], rest) == rest
  {
    if rest.Ok? {
      assert [] + rest.value == rest.value;
    }
  }

  lemma PrependTwice(done: seq<VType>, t: VType, rest: Outcome<seq<VType>>)
    ensures Prepend(done, Prepend([t], rest)) == Prepend(done + [t], rest)
  {
    if rest.Ok? {
      assert done + ([t] + rest.value) == done + [t] + rest.value;
    }
  }

  /** How `sigToTypes` reads one type name of a function signature. */
  function SigType(typeStr: string): (r: Outcome<VType>)
    ensures r.Ok? && Contains(typeStr, "struct") ==> r.value.Row?
    ensures r.Ok? && !Contains(typeStr, "struct") && Contains(typeStr, "dec") ==> r.value.Decimal?
    ensures !Contains(typeStr, "struct") && !Contains(typeStr, "dec") ==>
      (r.Ok? <==> ParseSubstraitType(typeStr).Some?) && (r.Ok? ==> Scalar(r.value))
  {
    if Contains(typeStr, "struct") then RowTypeOf(typeStr)
    else if Contains(typeStr, "dec") then DecimalType(typeStr)
    else SubstraitTypeToVeloxType(typeStr)
  }

  /** What `sigToTypes` yields for a list of type names: one type each, in
      order, or the error of the first name that fails. */
  function SigTypes(typeStrs: seq<string>): Outcome<seq<VType>> {
    MapAll(SigType, typeStrs)
  }

  /** `sigToTypes` on the type names `getSubFunctionTypes` extracted. */
  method SigToTypes(typeStrs: seq<string>) returns (r: Outcome<seq<VType>>)
    ensures r == SigTypes(typeStrs)
  {
    var types: seq<VType> := [];
    PrependNothing(SigTypes(typeStrs));
    assert typeStrs[0..] == typeStrs;
    for i := 0 to |typeStrs|
      invariant Prepend(types, SigTypes(typeStrs[i..])) == SigTypes(typeStrs)
    {
      var typeStr := typeStrs[i];
      var t: Outcome<VType>;
      if Contains(typeStr, "struct") {
        t := GetRowType(typeStr);
      } else if Contains(typeStr, "dec") {
        t := DecimalType(typeStr);
      } else {
        t := SubstraitTypeToVeloxType(typeStr);
      }
      SigTypesStep(typeStrs, i, t);
      if t.Err? {
        return Err(t.error);
      }
      PrependTwice(types, t.value, SigTypes(typeStrs[i + 1..]));
      types := types + [t.value];
    }
    assert typeStrs[|typeStrs|..] == [];
    assert types + [] == types;
    return Ok(types);
  }

  lemma SigTypesStep(typeStrs: seq<string>, i: nat, t: Outcome<VType>)
    requires i < |typeStrs| && t == SigType(typeStrs[i])
    ensures SigTypes(typeStrs[i..]) == if t.Err? then Err(t.error) else Prepend([t.value], SigTypes(typeStrs[i + 1..]))
  {
    assert typeStrs[i..][1..] == typeStrs[i + 1..];
  }

  /** `sigToTypes` succeeds exactly when every name converts; it then yields one
      type per name in order, and otherwise the error of the first failing name. */
  lemma SigTypesEach(typeStrs: seq<string>)
    ensures SigTypes(typeStrs).Ok? <==> forall i :: 0 <= i < |typeStrs| ==> SigType(typeStrs[i]).Ok?
    ensures SigTypes(typeStrs).Ok? ==>
              && |SigTypes(typeStrs).value| == |typeStrs|
              && forall i :: 0 <= i < |typeStrs| ==> SigTypes(typeStrs).value[i] == SigType(typeStrs[i]).value
    ensures SigTypes(typeStrs).Err? ==>
              exists i ::
                && 0 <= i < |typeStrs|
                && SigType(typeStrs[i]) == Err(SigTypes(typeStrs).error)
                && forall j :: 0 <= j < i ==> SigType(typeStrs[j]).Ok?
  {
    MapAllEach(SigType, typeStrs);
  }
}
