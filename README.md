# Substrait type strings and the host output-stream adapter, in Dafny

This project models two small pieces of a native columnar execution engine.
It proves properties of both.

1. **The type-string parser** (`cpp/velox/substrait/TypeUtils.cc`). It turns
   Velox type names such as `ROW<BIGINT,ARRAY<DOUBLE>:b>` and Substrait
   signature names such as `struct<i32,i64>` and `dec<10,2>` into type values.
   The model covers:
   - the top-level comma split of a compound name (`getTypesFromCompoundName`);
   - the kind prefix (`getNameBeforeDelimiter`);
   - the two decimal readers (`getPrecisionAndScale`, `getDecimalType`);
   - the recursive conversion (`toVeloxType`) with its ARRAY, MAP and ROW cases;
   - the struct reader (`getRowType`);
   - the per-argument dispatch of `sigToTypes`.

   The model keeps the C++ string arithmetic. `npos` is `None`, and
   `npos + 1` wraps to 0. `end - start - 1` wraps to a huge count when
   `end <= start`, and `substr` clamps that count. `std::stoi` skips
   leading white space, takes a sign and the longest digit prefix, and
   fails without a digit. Every thrown exception is an `Err` value of
   `TypeUtils.TypeError`.

2. **The write adapter**
   (`cpp-ch/local-engine/Shuffle/WriteBufferFromJavaOutputStream.cpp`). It
   drains a native write buffer into a Java `OutputStream`. The
   `WriteBufferFromJavaOutputStream` class keeps:
   - the pending bytes (`working_buffer[0 .. offset())`);
   - the staging `byte[]` array;
   - the constant staging size;
   - the log of calls the host stream receives.

   `NextImpl` is the drain loop, proved against the chunking function
   `Chunks`. `FinalizeImpl` is drain-then-flush.

Modules:
- `Results` (`results.dfy`): the `Option` and `Result` types.
- `Strings` (`strings.dfy`): the `std::string` operations the parser uses.
- `CompoundName` (`compound.dfy`): splitting a compound name.
- `TypeUtils` (`type_utils.dfy`): the conversions.
- `TypeUtilsFacts` (`type_utils_facts.dfy`): the properties of the conversions on concrete name shapes.
- `JavaOutputStream` (`write_buffer.dfy`): the write adapter.

## Model

| member | source | states |
|---|---|---|
| CompoundName.TypesFromCompoundName | cpp/velox/substrait/TypeUtils.cc:23-53 | the loop-based split returns exactly the pieces `CompoundFields` defines: the text between the first `<` and the last `>`, cut at its depth-zero commas |
| CompoundName.DepthZeroCommas | cpp/velox/substrait/TypeUtils.cc:33-45 | the bracket-counting scan collects exactly the positions `TopCommas` describes |
| CompoundName.CutAt | cpp/velox/substrait/TypeUtils.cc:46-52 | the piece-cutting loop yields the pieces between consecutive cut positions and the tail |
| CompoundName.Split | cpp/velox/substrait/TypeUtils.cc:46-52 | n cut positions give n + 1 pieces, each no longer than the text and shorter when there is a cut |
| CompoundName.CompoundFields | cpp/velox/substrait/TypeUtils.cc:23-53 | there is always at least one piece; with a `<` (or several pieces) every piece is shorter than the name, which is what makes the recursion of `toVeloxType` terminate |
| CompoundName.SplitPointsAtDepthZero | cpp/velox/substrait/TypeUtils.cc:35-45 | a position is a split point if and only if it holds a comma and the text before it has as many `<` as `>` |
| CompoundName.TopCommasAreBalancedCommas | cpp/velox/substrait/TypeUtils.cc:35-45 | the same characterisation for a scan started at any depth and offset, both directions |
| CompoundName.JoinSplit | cpp/velox/substrait/TypeUtils.cc:46-52 | joining the pieces with commas gives back the text that was cut at commas |
| CompoundName.CompoundFieldsRebuildBody | cpp/velox/substrait/TypeUtils.cc:28-52 | the pieces joined with commas are the body, and there is one more piece than depth-zero commas |
| CompoundName.CompoundBodyBetweenBrackets | cpp/velox/substrait/TypeUtils.cc:30-32 | when the first `<` comes before the last `>`, the body is exactly the text strictly between them |
| CompoundName.CompoundBody | cpp/velox/substrait/TypeUtils.cc:30-32 | the text that is split is never longer than the name, and strictly shorter once the name holds a `<` |
| CompoundName.TopCommasAreCuts | cpp/velox/substrait/TypeUtils.cc:35-45 | the positions the scan records are commas of the text, inside it, in strictly increasing order |
| Strings.FindChar | cpp/velox/substrait/TypeUtils.cc:65 | the first occurrence of a character: it holds the character and none comes before it; absent means the character does not occur |
| Strings.RFindChar | cpp/velox/substrait/TypeUtils.cc:66 | the last occurrence of a character: none comes after it; absent means the character does not occur |
| Strings.Find | cpp/velox/substrait/TypeUtils.cc:57 | the first position where the pattern occurs, or the fact that it occurs nowhere |
| Strings.AfterIsSizeT | cpp/velox/substrait/TypeUtils.cc:32 | `After` is the `size_t` sum `i + 1` modulo 2^64, so `npos + 1` is 0 |
| Strings.SpanBetweenIsSizeT | cpp/velox/substrait/TypeUtils.cc:32 | `SpanBetween` is the `size_t` value `(hi - lo - 1) mod 2^64`, with `npos` = 2^64 - 1: that number when it could be a string length, and `None` ("to the end" for `substr`) when it wrapped past every string length |
| Strings.Substr | cpp/velox/substrait/TypeUtils.cc:71 | `substr(pos, count)` is the slice from `pos` of length `count`, clamped to the end of the string |
| Strings.StoiOfDigits | cpp/velox/substrait/TypeUtils.cc:73-74 | `stoi` of a non-empty digit string is the number the digits denote |
| Strings.StoiOfNegative | cpp/velox/substrait/TypeUtils.cc:73-74 | `stoi` reads a minus sign followed by digits as the negated number |
| Strings.StoiWithoutDigit | cpp/velox/substrait/TypeUtils.cc:73-74 | text without any digit makes `stoi` fail (`std::invalid_argument`) |
| Strings.LowerAscii | cpp/velox/substrait/TypeUtils.cc:140-142 | lower-casing keeps the length, maps every character and leaves no ASCII capital |
| TypeUtils.NameBeforeDelimiter | cpp/velox/substrait/TypeUtils.cc:56-62 | the result is a prefix of the name: it ends at the first occurrence of the delimiter, or it is the whole name when the delimiter is absent |
| TypeUtils.PrecisionAndScale | cpp/velox/substrait/TypeUtils.cc:64-69 | a name without `<` or without `>` is rejected as an invalid decimal |
| TypeUtils.DecimalBody | cpp/velox/substrait/TypeUtils.cc:65-71 | the text between the brackets is missing exactly when the name lacks a `<` or a `>` |
| TypeUtils.ToVeloxTypeNamesType | cpp/velox/substrait/TypeUtils.cc:78-155 | the empty name is rejected; a kind name that is neither DATE, SHORT_DECIMAL nor in the kind table is rejected with that name; a success has the type its kind name names (DATE, a DECIMAL for SHORT_DECIMAL, otherwise a type of the kind the table gives) |
| TypeUtils.KindToVeloxType | cpp/velox/substrait/TypeUtils.cc:89-155 | a success of the `switch` is of the kind switched on: the fixed type of a scalar kind, a DECIMAL for HUGEINT, an ARRAY, a MAP, or a ROW with one name per child; an ARRAY or ROW name without `<` is rejected (see Findings); the ARRAY element and the MAP key and value are the fields' conversions, as `TypeUtilsFacts.ArrayElement` and `MapEntries` state |
| TypeUtils.FieldTypeName | cpp/velox/substrait/TypeUtils.cc:131-138 | the type part of a ROW field is the whole field without a `:`, else the text before its last `:` |
| TypeUtils.FieldName | cpp/velox/substrait/TypeUtils.cc:132-144 | a field without `:` is named `col_<idx>`; otherwise the name holds no `:`, and without lower-casing the field is its type part, a `:` and its name |
| TypeUtils.RowTypesEach | cpp/velox/substrait/TypeUtils.cc:128-145 | the types the ROW loop produces are the conversions of the fields' type parts, one per field in order, or the error of the first field that fails |
| TypeUtils.RowNames | cpp/velox/substrait/TypeUtils.cc:130-144 | one name per field: `col_<idx>` without a `:`, else the text after the last `:`, lower-cased when asked |
| TypeUtils.ReadRowFields | cpp/velox/substrait/TypeUtils.cc:128-145 | the ROW loop yields the converted type parts of the fields in order (or the first error), and on success the field names `RowNames` defines |
| TypeUtils.ScalarTypeIsToVeloxType | cpp/velox/substrait/TypeUtils.cc:81-111 | every plain type name in the scalar table converts to that type |
| TypeUtils.ScalarTypeKind | cpp/velox/substrait/TypeUtils.cc:88-111 | every scalar name is DATE, or the table gives it a kind whose case returns that scalar type |
| TypeUtils.KindNameConverts | cpp/velox/substrait/TypeUtils.cc:88-111 | a plain name whose kind has a scalar case converts to that case's type |
| TypeUtils.ParsedNamesAreScalar | cpp/velox/substrait/TypeUtils.cc:158-160 | every name the stand-in table `ParseSubstraitType` knows is mapped to a scalar type name |
| TypeUtils.SubstraitTypeToVeloxType | cpp/velox/substrait/TypeUtils.cc:158-160 | a Substrait name converts exactly when the stand-in table `ParseSubstraitType` knows it, and then to a scalar type; an unknown name is rejected with that name |
| TypeUtils.SubstraitTypeToVeloxTypeIsToVeloxType | cpp/velox/substrait/TypeUtils.cc:158-160 | a Substrait name is parsed, then converted by `toVeloxType`; an unknown name fails |
| TypeUtils.DecimalType | cpp/velox/substrait/TypeUtils.cc:202-210 | a successful read is a DECIMAL type |
| TypeUtils.StructFieldOfDecimal | cpp/velox/substrait/TypeUtils.cc:183-190 | a field containing `dec`, with the first `>` past the comma, is read as the text up to that `>` plus `>`; the erase drops the `>` and whatever single character follows it, a comma or not |
| TypeUtils.StructField | cpp/velox/substrait/TypeUtils.cc:180-195 | each pass of the loop erases at least one character, so the loop ends |
| TypeUtils.DecimalTail | cpp/velox/substrait/TypeUtils.cc:189 | after the erase the rest is a strictly shorter suffix of the text; when the text reaches two characters past the `>`, it is exactly what follows them |
| TypeUtils.StructChildren | cpp/velox/substrait/TypeUtils.cc:180-198 | the loop, with a decimal last field read as the last type (corrected, see Findings): a successful struct body yields at least one type |
| TypeUtils.StructChildrenAsWritten | cpp/velox/substrait/TypeUtils.cc:180-198 | the loop as written: a successful struct body yields at least one type; its result on a trailing decimal field is in Findings |
| TypeUtils.EmptyNames | cpp/velox/substrait/TypeUtils.cc:188-198 | every struct field is named with the empty string |
| TypeUtils.RowTypeOf | cpp/velox/substrait/TypeUtils.cc:166-200 | a struct is rejected when the `size_t` difference of its last `>` and first `<` is at most 1 (adjacent brackets, neither bracket, or no `<` and a `>` at the very start); a successful struct is a ROW with at least one child, one name per child, and every name empty |
| TypeUtils.GapAboveOneIsSizeT | cpp/velox/substrait/TypeUtils.cc:171-172 | the gap test is the `size_t` comparison `structEnd - structStart > 1`, either position possibly `npos` |
| TypeUtils.GetRowType | cpp/velox/substrait/TypeUtils.cc:166-200 | the loop-based struct reader computes `RowTypeOf` |
| TypeUtils.ReadStructFields | cpp/velox/substrait/TypeUtils.cc:176-198 | the comma loop computes `StructChildren`, with one empty name per type |
| TypeUtils.ReadStructField | cpp/velox/substrait/TypeUtils.cc:180-195 | one turn of the loop strictly shortens the text; the body's types are then the field's type followed by those of the text the erase leaves, or just the field's type when it was a decimal the erase left nothing after, or the field's error |
| TypeUtils.ReadLastField | cpp/velox/substrait/TypeUtils.cc:197-198 | once no comma is left, the body's types are the type of the remaining text alone, or its error |
| TypeUtils.SigToTypes | cpp/velox/substrait/TypeUtils.cc:212-227 | the loop computes `SigTypes`: one type per name, in order |
| TypeUtils.SigType | cpp/velox/substrait/TypeUtils.cc:218-224 | a name containing `struct` gives a ROW; else one containing `dec` gives a DECIMAL; any other name converts exactly when the parser knows it, to a scalar type |
| TypeUtils.SigTypesEach | cpp/velox/substrait/TypeUtils.cc:212-227 | the signature converts if and only if every name converts; then there is one type per name, in order; otherwise the error is that of the first failing name, and all names before it convert |
| Results.MapAllEach | cpp/velox/substrait/TypeUtils.cc:217-225 | the same, for any conversion applied name by name |
| TypeUtilsFacts.DecimalArgumentsOfDigits | cpp/velox/substrait/TypeUtils.cc:71-75 | the text `p,s` of two digit strings reads as precision p and scale s |
| TypeUtilsFacts.PrecisionAndScaleOfDecimalName | cpp/velox/substrait/TypeUtils.cc:64-76 | `NAME<p,s>` reads as precision p and scale s |
| TypeUtilsFacts.DecimalBodyOfDecimalName | cpp/velox/substrait/TypeUtils.cc:65-71 | the text read between the brackets of `NAME<p,s>` is `p,s` |
| TypeUtilsFacts.DecimalTypeAt | cpp/velox/substrait/TypeUtils.cc:202-210 | when the first `<`, `,` and `>` come in that order and enclose two digit strings, the result is DECIMAL of those numbers |
| TypeUtilsFacts.DecimalTypeOfDecimalName | cpp/velox/substrait/TypeUtils.cc:202-210 | `dec<p,s>` (any prefix free of `<`, `,` and `>`) reads as DECIMAL(p, s) |
| TypeUtilsFacts.DecimalNamePunctuation | cpp/velox/substrait/TypeUtils.cc:204-206 | in `NAME<p,s>` the first `<`, `,` and `>` are the ones around `p` and `s` |
| TypeUtilsFacts.ShortDecimalIsDecimal | cpp/velox/substrait/TypeUtils.cc:84-87 | `SHORT_DECIMAL<p,s>` converts to DECIMAL(p, s) |
| TypeUtilsFacts.HugeIntKindIsDecimal | cpp/velox/substrait/TypeUtils.cc:100-103 | any HUGEINT name converts to the DECIMAL its precision and scale give, or their error |
| TypeUtilsFacts.HugeIntIsDecimal | cpp/velox/substrait/TypeUtils.cc:100-103 | `HUGEINT<p,s>` converts to DECIMAL(p, s) |
| TypeUtilsFacts.KindNameOfCompound | cpp/velox/substrait/TypeUtils.cc:80 | the kind of `KIND<...>` is the text before the first `<` |
| TypeUtilsFacts.EmptyNameRejected | cpp/velox/substrait/TypeUtils.cc:79 | the empty name is rejected |
| TypeUtilsFacts.UnknownKindRejected | cpp/velox/substrait/TypeUtils.cc:88 | a kind name missing from the table is rejected with that name |
| TypeUtilsFacts.ArrayArityRejected | cpp/velox/substrait/TypeUtils.cc:112-114 | an ARRAY with other than one field is rejected |
| TypeUtilsFacts.MapArityRejected | cpp/velox/substrait/TypeUtils.cc:117-119 | a MAP with other than two fields is rejected |
| TypeUtilsFacts.ArrayElement | cpp/velox/substrait/TypeUtils.cc:112-116 | an ARRAY with one field is the ARRAY of that field's conversion, or fails with that conversion's error |
| TypeUtilsFacts.MapEntries | cpp/velox/substrait/TypeUtils.cc:117-123 | a MAP with two fields is the MAP from the first field's conversion to the second's; the key's error comes first, then the value's |
| TypeUtilsFacts.RowFieldNames | cpp/velox/substrait/TypeUtils.cc:124-146 | a converted ROW has one child and one name per field; name k is the name field k gives at index k, and child k is the conversion of field k's type part |
| TypeUtilsFacts.RowKindTypes | cpp/velox/substrait/TypeUtils.cc:124-146 | the ROW case succeeds exactly when every field's type part converts; the children are then those types in order, and otherwise the error is that of a field that fails |
| TypeUtilsFacts.RowKindOfRowTypes | cpp/velox/substrait/TypeUtils.cc:124-146 | the ROW case is a ROW of the field names and the converted types, or the first conversion error |
| TypeUtilsFacts.NamedField | cpp/velox/substrait/TypeUtils.cc:137-143 | a field `T:n` has type part T and name n, lower-cased when asked |
| TypeUtilsFacts.UnnamedField | cpp/velox/substrait/TypeUtils.cc:133-136 | a field without `:` is all type and is named `col_<idx>` |
| TypeUtilsFacts.PlainNameIsOneField | cpp/velox/substrait/TypeUtils.cc:23-53 | a name without brackets and commas splits into itself |
| TypeUtilsFacts.BareCompoundRecursesAsWritten | cpp/velox/substrait/TypeUtils.cc:112-135 | for `ARRAY` and `ROW` without `<`, the kind is compound and the single field is the name itself, so the recursive call gets its own input again |
| TypeUtilsFacts.BareCompoundRejected | cpp/velox/substrait/TypeUtils.cc:112-135 | a bare `ARRAY` or `ROW` is rejected instead |
| TypeUtilsFacts.EmptyStructRejected | cpp/velox/substrait/TypeUtils.cc:169-172 | `struct<>` fails the gap check |
| TypeUtilsFacts.StructFieldOfDecimalName | cpp/velox/substrait/TypeUtils.cc:183-190 | a pass on text starting with `dec<p,s>` reads DECIMAL(p, s) and leaves what follows the character after its `>` |
| TypeUtilsFacts.DecimalFieldThen | cpp/velox/substrait/TypeUtils.cc:180-198 | in the corrected loop a decimal field followed by at most one character is the last type; otherwise the fields after that character follow it |
| TypeUtilsFacts.DecimalFieldLast | cpp/velox/substrait/TypeUtils.cc:180-198 | in the corrected loop the body `dec<p,s>` of `struct<dec<p,s>>` reads as the one DECIMAL(p, s) |
| TypeUtilsFacts.DecimalFieldThenAsWritten | cpp/velox/substrait/TypeUtils.cc:180-198 | as written, a decimal field followed by at most one character leaves the empty string to line 197, which rejects it |
| TypeUtilsFacts.PlainFieldThen | cpp/velox/substrait/TypeUtils.cc:193-195 | a field without a comma or `dec` is converted by `substraitTypeToVeloxType` and erased with its comma, in both loops |
| TypeUtilsFacts.StructChildrenOfPlainFields | cpp/velox/substrait/TypeUtils.cc:180-198 | fields without commas or `dec`, joined by commas, read as the conversion of each field in order, or the first error |
| TypeUtilsFacts.IntAndDecimalStruct | cpp/velox/substrait/TypeUtils.cc:180-198 | the corrected loop reads the body of `struct<i32,dec<10,2>>` as INTEGER then DECIMAL(10, 2) |
| TypeUtilsFacts.IntAndDecimalStructAsWritten | cpp/velox/substrait/TypeUtils.cc:180-198 | the loop as written rejects the same body: line 197 converts the empty string |
| JavaOutputStream.Chunks | cpp-ch/local-engine/Shuffle/WriteBufferFromJavaOutputStream.cpp:15-21 | a drain has no chunk exactly when there is no pending byte |
| JavaOutputStream.ConcatChunks | cpp-ch/local-engine/Shuffle/WriteBufferFromJavaOutputStream.cpp:15-21 | the chunks, concatenated in order, are the pending bytes |
| JavaOutputStream.ChunkLengths | cpp-ch/local-engine/Shuffle/WriteBufferFromJavaOutputStream.cpp:17 | every chunk is non-empty and at most the staging size; every chunk but the last is exactly the staging size |
| JavaOutputStream.ChunkCount | cpp-ch/local-engine/Shuffle/WriteBufferFromJavaOutputStream.cpp:15-21 | the number of chunks k is the ceiling of pending length over staging size: (k - 1) * size < length <= k * size |
| JavaOutputStream.ChunkAt | cpp-ch/local-engine/Shuffle/WriteBufferFromJavaOutputStream.cpp:17-20 | chunk i is the pending bytes from i * size up to (i + 1) * size or the end |
| JavaOutputStream.WriteCallsOf | cpp-ch/local-engine/Shuffle/WriteBufferFromJavaOutputStream.cpp:19 | one write call per chunk, in order, each at offset 0 with the chunk's length |
| JavaOutputStream.DrainStep | cpp-ch/local-engine/Shuffle/WriteBufferFromJavaOutputStream.cpp:17-20 | after one loop turn, the calls issued plus those still due are unchanged |
| JavaOutputStream.StagingStep | cpp-ch/local-engine/Shuffle/WriteBufferFromJavaOutputStream.cpp:17-20 | after one loop turn, staging the chunk and then the rest leaves the array as staging everything left before the turn would |
| JavaOutputStream.DrainPayload | cpp-ch/local-engine/Shuffle/WriteBufferFromJavaOutputStream.cpp:18-19 | the bytes the host receives through a drain's write calls are exactly the pending bytes, in order |
| JavaOutputStream.FinalizeLog | cpp-ch/local-engine/Shuffle/WriteBufferFromJavaOutputStream.cpp:32-38 | finalizing issues writes, each at offset 0 and at most the staging size, then exactly one flush, as the last call; the writes deliver the pending bytes |
| JavaOutputStream.StagingHoldsLastChunk | cpp-ch/local-engine/Shuffle/WriteBufferFromJavaOutputStream.cpp:18 | after a drain the front of the staging array holds the last chunk |
| JavaOutputStream.StagingKeepsTail | cpp-ch/local-engine/Shuffle/WriteBufferFromJavaOutputStream.cpp:18 | a drain never changes the staging array beyond the staging size |
| JavaOutputStream.WriteBufferFromJavaOutputStream.constructor | cpp-ch/local-engine/Shuffle/WriteBufferFromJavaOutputStream.cpp:24-31 | keeps the stream and staging array, sets the staging size to the requested size (constant afterwards), with nothing pending |
| JavaOutputStream.WriteBufferFromJavaOutputStream.StageChunk | cpp-ch/local-engine/Shuffle/WriteBufferFromJavaOutputStream.cpp:18 | a chunk is copied to position 0 of the staging array, and the rest of the array is unchanged |
| JavaOutputStream.WriteBufferFromJavaOutputStream.TransferChunk | cpp-ch/local-engine/Shuffle/WriteBufferFromJavaOutputStream.cpp:18-19 | one loop turn: the chunk is staged at the front of the array, and one write call from offset 0 for the chunk's length hands exactly the chunk to the host |
| JavaOutputStream.WriteBufferFromJavaOutputStream.NextImpl | cpp-ch/local-engine/Shuffle/WriteBufferFromJavaOutputStream.cpp:11-23 | the loop issues exactly the write calls of the drain of the pending bytes and leaves the staging array as staging every chunk in turn would; with nothing pending it issues no call |
| JavaOutputStream.WriteBufferFromJavaOutputStream.Next | cpp-ch/local-engine/Shuffle/WriteBufferFromJavaOutputStream.cpp:34 | with nothing pending, nothing happens; otherwise the pending bytes are drained and the buffer is empty afterwards; the buffer stays valid |
| JavaOutputStream.WriteBufferFromJavaOutputStream.FinalizeImpl | cpp-ch/local-engine/Shuffle/WriteBufferFromJavaOutputStream.cpp:32-38 | the drain's write calls, then one flush, and nothing left pending; with a zero staging size (so nothing pending) only the flush, and the staging array unchanged; the buffer stays valid |

## Left out

- JNI is not modelled: the environment, weak global references, `SetByteArrayRegion` and `CallVoidMethod`. The host stream is the log of calls it receives, and the staging array is a Dafny `array<byte>`. A host-side exception raised inside a call is not modelled.
- The destructor (`WriteBufferFromJavaOutputStream.cpp:39-45`) only drops the weak references, so it is not modelled.
- The `WriteBuffer` base class is not part of this model. `WriteBufferFromJavaOutputStream.Next` stands in for its `next()`: skip when nothing is pending, otherwise drain and start over. `WriteBufferFromJavaOutputStream.Append` stands in for its `write()`, without the automatic drain when the native buffer fills up.
- JavaOutputStream.WriteBufferFromJavaOutputStream.NextImpl: requires a non-zero staging size when bytes are pending. With a zero size the source's loop never ends, and a Dafny method must end.
- JavaOutputStream.WriteBufferFromJavaOutputStream.constructor: requires the staging size to be at most the staging array's length, and that length to be at most 2^31 - 1, the largest Java array. This is an assumption on callers. The C++ constructor stores any `customize_buffer_size` without comparing it with the array. A larger size would make `SetByteArrayRegion` (`WriteBufferFromJavaOutputStream.cpp:18`) fail on a long drain, and that failure is not modelled. Under the assumption the `static_cast<jint>` of line 17 cannot truncate.
- TypeUtils.ParseInt: does not model the `std::out_of_range` that `std::stoi` throws for numbers outside 32 bits. Precision and scale are unbounded integers.
- TypeUtils.DecimalOf: does not model the precision and scale range checks of Velox's `DECIMAL` factory. That factory is not part of this model.
- `mapNameToTypeKind` and `SubstraitParser::parseType` are not part of this model. They stand as the tables `TypeUtils.MapNameToTypeKind` and `TypeUtils.ParseSubstraitType`. A name missing from either table is an error.
- `SubstraitParser::getSubFunctionTypes` is not part of this model. `TypeUtils.SigToTypes` takes the list of type names it produces.
- The `substraitTypeToVeloxType` overload that takes a Substrait protobuf type (`TypeUtils.cc:162-164`) is not modelled: protobuf messages are not part of this model.
- Exceptions (`VELOX_CHECK`, `VELOX_NYI`, `std::runtime_error`, `std::invalid_argument`) are the constructors of `TypeUtils.TypeError`. Their message texts are not modelled.
- Every string is assumed to be far shorter than `npos`. Size arithmetic that wraps is modelled as `None` ("a huge count"), and `substr` clamps that count to the string's end.
- `TypeUtils.StructChildren` and the loop `TypeUtils.ReadStructFields` read a decimal field that ends the struct body as the last field. So do the members built on them: `TypeUtils.RowTypeOf`, `TypeUtils.GetRowType`, `TypeUtils.SigType`, `TypeUtils.SigToTypes` and `TypeUtils.SigTypesEach`. As written, the source rejects such a body (see Findings); that behaviour is `TypeUtils.StructChildrenAsWritten`.
- Velox `TypePtr` sharing and the type objects' methods are not modelled. A type is the value `TypeUtils.VType`.

## Findings

| source | as written | input that shows it | evidently intended | confidence | as-written member | corrected member |
|---|---|---|---|---|---|---|
| cpp/velox/substrait/TypeUtils.cc:112-135 | the ARRAY and ROW cases split the name and convert the single field it yields, even when the name has no `<` | `toVeloxType("ARRAY")` or `toVeloxType("ROW")`: the split yields `["ARRAY"]` (resp. `["ROW"]`), so the recursive call receives its own input and never returns | reject a compound kind written without its `<...>` part | not executed | TypeUtilsFacts.BareCompoundRecursesAsWritten | TypeUtilsFacts.BareCompoundRejected |
| cpp/velox/substrait/TypeUtils.cc:180-198 | a decimal field is converted and appended (line 187), and the erase of line 189 removes the rest of the text; the loop then stops and line 197 converts the empty remainder, which `parseType` rejects | `getRowType("struct<i32,dec<10,2>>")`: the body `i32,dec<10,2>` reads INTEGER, then DECIMAL(10, 2), then fails on `""` | a decimal field that ends the body is the last field, so the struct is ROW(INTEGER, DECIMAL(10, 2)) | not executed | TypeUtilsFacts.IntAndDecimalStructAsWritten | TypeUtilsFacts.IntAndDecimalStruct |
