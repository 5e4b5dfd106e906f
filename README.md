# AGT-Plugin core, modelled in Dafny

The AGT-Plugin is a library of Blueprint-callable helpers for Unreal Engine. This project models the library's main piece and four smaller utility groups.

The main piece is the reflection-driven value codec in `AGT_ActionFile.cpp`. It walks a property descriptor (`FProperty`: array, set, map, struct, object or scalar) together with the memory it describes, and converts between that memory and the engine's JSON value tree (`FJsonValue`). It works in three recursive passes:

- The **encoder** (`AnyStructToJsonValue`) reads memory and builds a tree.
- The **normaliser** (`JsonValueToAnyStruct(Property, Value)`) rewrites an incoming tree into the shape the descriptor expects, keyed by internal field names.
- The **decoder** (`JsonValueToAnyStruct(JsonValue, Property, ValuePtr)`) writes a tree into memory, container by container. It stops at the first element that fails.

Built on these passes are:

- the JSON string entry points;
- an XML writer and reader that go through the same tree: nested, indented tags, with escaping at the scalar leaves;
- a CSV writer.

The secondary pieces are:

- the integer and string array utilities (`AGT_AdvanceArray.cpp`);
- the in-place `FString` editors (`AGT_ActionStr.cpp`);
- rounding to a multiple on 32-bit integers (`AGT_ActionMath.cpp`);
- the Blueprint JSON handles (`AGT_ActionJSON.cpp`).

Modules:

| file | module | what it holds |
|---|---|---|
| wrappers.dfy | Wrappers | `Option` |
| text.dfy | Text | `FString::ReplaceInline` (`ReplaceAll`), `FString::Find`, concatenation, indentation |
| json_tree.dfy | JsonTree | the JSON tree, `EJsonType`, the key-unique object operations of `FJsonObject` |
| reflection.dfy | Reflection | property descriptors, memory as a value, the engine conversions the codec calls (`Foreign`) |
| json_codec.dfy | JsonCodec | encoder, normaliser, decoder (specification function `Decode` and the imperative `JsonValueToAnyStruct` proved equal to it), string entry points |
| json_codec_props.dfy | JsonCodecProps | the shape rules of the three passes, as lemmas |
| xml_text.dfy | XmlText | `XmlEscapeChars` and `XmlConvertChars` |
| xml_codec.dfy | XmlCodec | `CreateTagNode`, the XML writer and reader, their entry points |
| xml_codec_props.dfy | XmlCodecProps | XML layout, leaf round trips, reader rules |
| csv.dfy | Csv | `CSVToString` |
| advance_array.dfy | AdvanceArray | minimum/maximum, reverse, clamp, extract, split, sort, filters |
| action_str.dfy | ActionStr | the `FString` class and its in-place editors |
| action_math.dfy | ActionMath | truncating division and the three rounding functions |
| action_json.dfy | ActionJson | the shared `JsonObject` class behind object handles, value handles |

Memory is a value (`Reflection.Mem`). The decoder's method returns the memory after the write. A shared `FJsonObject` and an `FString` edited through a reference are classes with `modifies` clauses. The engine code the core calls is passed in as function values (`Reflection.Foreign`, `ActionStr.CharClass`, `ActionJson.ValueConv`, and the regex and filter predicates). Those calls are: leaf conversion, `ExportTextItem`, object construction, the JSON reader and writer, the XML loader, `SanitizeFloat`, `Atod`, case mapping, regex matching and delegates. `LINE_TERMINATOR` is fixed to `"\n"`.

## Model

| member | source | states |
|---|---|---|
| JsonTree.TypeOf | Source/AdvanceGameTools/AGTDataTypes.h:264-274 | a valid value never has the type `None`, which is kept for invalid handles |
| JsonTree.Lookup | Source/AdvanceGameTools/Library/AGT_ActionJSON.cpp:35-42 | a key is found exactly when it is one of the object's keys |
| JsonTree.SetField | Source/AdvanceGameTools/Library/AGT_ActionFile.cpp:1724 | after `SetField` the key maps to the new value; the key list is unchanged when the key was present, otherwise the key is appended |
| JsonTree.SetFieldOthers | Source/AdvanceGameTools/Library/AGT_ActionFile.cpp:1724 | setting one key leaves every other key's value as it was |
| JsonTree.SetFieldUnique | Source/AdvanceGameTools/Library/AGT_ActionFile.cpp:1724 | setting a key keeps the object's keys unique (the `TMap` invariant) |
| JsonTree.SetFieldNew | Source/AdvanceGameTools/Library/AGT_ActionFile.cpp:1724 | setting an absent key appends exactly one member at the end |
| JsonTree.RemoveField | Source/AdvanceGameTools/Library/AGT_ActionJSON.cpp:56-63 | after removal the key is absent, every other key keeps its value, no key is added, and unique keys stay unique |
| JsonTree.LookupUnique | Source/AdvanceGameTools/Library/AGT_ActionFile.cpp:1724 | with unique keys the member at each position is what a lookup of its key finds |
| JsonTree.UniqueKeysDistinct | Source/AdvanceGameTools/Library/AGT_ActionFile.cpp:1724 | unique keys means no two positions share a key |
| Reflection.TryGetString | Source/AdvanceGameTools/Library/AGT_ActionFile.cpp:1713-1717 | strings, numbers and booleans have a text form, and a string's is itself; null and containers have none |
| JsonCodec.MapEntries | Source/AdvanceGameTools/Library/AGT_ActionFile.cpp:1707-1727 | the map loop visits `Num` slots, slot `j` in step `j`, live or not |
| JsonCodec.FieldEntries | Source/AdvanceGameTools/Library/AGT_ActionFile.cpp:1729-1738 | one entry per declared field, in declaration order |
| JsonCodec.AnyStructToJsonValue | Source/AdvanceGameTools/Library/AGT_ActionFile.cpp:1678-1683 | a null descriptor or a null address encodes to `Null` and logs nothing |
| JsonCodec.MapNormEntries | Source/AdvanceGameTools/Library/AGT_ActionFile.cpp:1828-1847 | one normalised entry per member of the incoming map object, in order |
| JsonCodec.FieldPicks | Source/AdvanceGameTools/Library/AGT_ActionFile.cpp:1849-1876 | one pick per declared field, in declaration order |
| JsonCodec.NormalizeValue | Source/AdvanceGameTools/Library/AGT_ActionFile.cpp:1785-1790 | an invalid value, a `Null` value or a missing descriptor normalises to `Null` |
| JsonCodec.Resize | Source/AdvanceGameTools/Library/AGT_ActionFile.cpp:1927 | `Resize(n)` leaves exactly `n` elements, keeps the existing prefix and fills new places with the default |
| JsonCodec.WithClassName | Source/AdvanceGameTools/Library/AGT_ActionFile.cpp:2019-2022 | afterwards `_ClassName` holds a string, and every other field is as it was |
| JsonCodec.DecodeElems | Source/AdvanceGameTools/Library/AGT_ActionFile.cpp:1928-1934 | the array loop keeps the resized length |
| JsonCodec.DecodeFields | Source/AdvanceGameTools/Library/AGT_ActionFile.cpp:1988-1999 | the struct loop keeps one value per declared field |
| JsonCodec.DecodeValue | Source/AdvanceGameTools/Library/AGT_ActionFile.cpp:1916-1919 | an invalid tree or a null descriptor fails and writes nothing |
| JsonCodec.JsonValueToAnyStruct | Source/AdvanceGameTools/Library/AGT_ActionFile.cpp:1914-2032 | the imperative decoder's verdict and memory are exactly those of the specification `DecodeValue` |
| JsonCodec.DecodeArrayInto | Source/AdvanceGameTools/Library/AGT_ActionFile.cpp:1921-1936 | the array branch's loop, which returns at the first failing element, computes `Decode` |
| JsonCodec.DecodeSetInto | Source/AdvanceGameTools/Library/AGT_ActionFile.cpp:1938-1954 | the set branch's loop (add a default slot, decode into it, rehash only at the end) computes `Decode` |
| JsonCodec.DecodeMapInto | Source/AdvanceGameTools/Library/AGT_ActionFile.cpp:1956-1977 | the map branch's loop computes `Decode` for every prior memory, because the map is emptied first |
| JsonCodec.DecodeStructInto | Source/AdvanceGameTools/Library/AGT_ActionFile.cpp:1985-2000 | the struct branch's loop over declared fields computes `Decode` |
| JsonCodec.AnyStructToJsonString | Source/AdvanceGameTools/Library/AGT_ActionFile.cpp:1655-1676 | a null descriptor or address fails and leaves the caller's string as it was; past that the writer bound to the string is closed on every path, so a tree that is not an object or an array fails and leaves the string empty, and a container gets the serialiser's verdict and text |
| JsonCodec.JsonStringToAnyStruct | Source/AdvanceGameTools/Library/AGT_ActionFile.cpp:1765-1783 | empty text, a missing descriptor or address, or a parse failure fail without writing; success needs a normalised tree that is a non-empty array or object; past the gate, the result is the decoder's |
| JsonCodecProps.EncodeListElements | Source/AdvanceGameTools/Library/AGT_ActionFile.cpp:1689-1692 | a list encodes element by element, in order |
| JsonCodecProps.EncodeArray | Source/AdvanceGameTools/Library/AGT_ActionFile.cpp:1685-1694 | an array becomes a JSON array of its `Num` elements, element `i` encoded with the inner descriptor |
| JsonCodecProps.EncodeSet | Source/AdvanceGameTools/Library/AGT_ActionFile.cpp:1696-1705 | a set becomes a JSON array of `Num` elements taken from storage slots `0..Num-1` in order, whether those slots are live or not |
| JsonCodecProps.FoldDistinct | Source/AdvanceGameTools/Library/AGT_ActionFile.cpp:1752-1758 | a field loop with distinct keys and no skips keeps every entry, in order, with unique keys |
| JsonCodecProps.FoldKeepsAll | Source/AdvanceGameTools/Library/AGT_ActionFile.cpp:1752-1758 | the same, by induction on the loop |
| JsonCodecProps.FoldSize | Source/AdvanceGameTools/Library/AGT_ActionFile.cpp:1724 | a `SetField` loop yields at most one member per step, with unique keys |
| JsonCodecProps.FoldStep | Source/AdvanceGameTools/Library/AGT_ActionFile.cpp:1724 | each loop step is `SetField` onto the result so far; a skipped step changes nothing |
| JsonCodecProps.FoldKeySet | Source/AdvanceGameTools/Library/AGT_ActionFile.cpp:1724 | a key is in the result exactly when some step set it |
| JsonCodecProps.FoldLastWins | Source/AdvanceGameTools/Library/AGT_ActionFile.cpp:1724 | the last step under a key supplies its value |
| JsonCodecProps.FoldLog | Source/AdvanceGameTools/Library/AGT_ActionFile.cpp:1718-1721 | every warning logged in a step reaches the result's log |
| JsonCodecProps.EncodeStruct | Source/AdvanceGameTools/Library/AGT_ActionFile.cpp:1729-1738 | a struct becomes one member per declared field, keyed by authored name, in declaration order, each value encoded by the field's descriptor |
| JsonCodecProps.EncodeObject | Source/AdvanceGameTools/Library/AGT_ActionFile.cpp:1740-1759 | a null object pointer gives `Null`; a native class goes to the engine's leaf conversion; otherwise the result is one member per declared field, as for a struct |
| JsonCodecProps.EncodeMapKeys | Source/AdvanceGameTools/Library/AGT_ActionFile.cpp:1707-1727 | a map becomes an object with at most `Num` members and unique keys; a key is present exactly when some slot's key text (string form, else exported text) is that key |
| JsonCodecProps.EncodeMapLastWins | Source/AdvanceGameTools/Library/AGT_ActionFile.cpp:1724 | when several slots share a key text, the last of them supplies the value |
| JsonCodecProps.EncodeMapWarning | Source/AdvanceGameTools/Library/AGT_ActionFile.cpp:1718-1721 | a slot whose key has no string form and empty exported text is reported by its index |
| JsonCodecProps.NormalizeListElements | Source/AdvanceGameTools/Library/AGT_ActionFile.cpp:1798-1801 | a list normalises element by element, in order |
| JsonCodecProps.NormalizeLeaves | Source/AdvanceGameTools/Library/AGT_ActionFile.cpp:1785-1912 | `Null` stays `Null`; a shape mismatch gives an empty array (array, set), an empty object (map, struct) or `Null` (non-native object), each with a warning naming the target kind and the found type; scalars and native-object values pass through unchanged |
| JsonCodecProps.NormalizeArray | Source/AdvanceGameTools/Library/AGT_ActionFile.cpp:1792-1826 | an array or set target keeps the tree's length, each element normalised by the element descriptor |
| JsonCodecProps.NormalizeMap | Source/AdvanceGameTools/Library/AGT_ActionFile.cpp:1828-1847 | a map keeps exactly the incoming keys, unique, each value normalised by the value descriptor |
| JsonCodecProps.NormalizeFieldKeys | Source/AdvanceGameTools/Library/AGT_ActionFile.cpp:1849-1876 | a struct or non-native object's keys are exactly the internal names of the declared fields found under their authored or internal name; undeclared keys are dropped |
| JsonCodecProps.NormalizeFieldValue | Source/AdvanceGameTools/Library/AGT_ActionFile.cpp:1857-1868 | a declared field's value comes from its authored-name entry if present, else its internal-name entry, normalised by the field's descriptor |
| JsonCodecProps.NormalizeGate | Source/AdvanceGameTools/Library/AGT_ActionFile.cpp:1777 | a top-level scalar, an empty array and an empty map never pass the string entry point's gate |
| JsonCodecProps.DecodeElemsStops | Source/AdvanceGameTools/Library/AGT_ActionFile.cpp:1928-1934 | the array loop decodes elements in order up to a point `f`; elements before `f` succeeded and are written; if the loop failed, element `f` failed and is written; every later element is left as resized |
| JsonCodecProps.DecodeArray | Source/AdvanceGameTools/Library/AGT_ActionFile.cpp:1921-1936 | an array decode resizes to the tree's length, then stops at the first failing element, keeping the earlier ones written |
| JsonCodecProps.DecodeSlotsAppends | Source/AdvanceGameTools/Library/AGT_ActionFile.cpp:1944-1951 | the set loop only appends: the old slots stay, followed by one freshly decoded slot per element up to the first failure |
| JsonCodecProps.DecodeSet | Source/AdvanceGameTools/Library/AGT_ActionFile.cpp:1938-1954 | a set decode appends to the existing slots without clearing, and the set is rehashed exactly when every element succeeded |
| JsonCodecProps.DecodePairsKeys | Source/AdvanceGameTools/Library/AGT_ActionFile.cpp:1964-1973 | the map loop appends one pair per entry in order, each key decoded from the entry's key as a string |
| JsonCodecProps.DecodeMapFresh | Source/AdvanceGameTools/Library/AGT_ActionFile.cpp:1962 | a map decode does not depend on what the map held before: it is emptied first |
| JsonCodecProps.DecodeMap | Source/AdvanceGameTools/Library/AGT_ActionFile.cpp:1956-1977 | a map decode gives the pairs decoded from the tree's entries in order, rehashed exactly on success |
| JsonCodecProps.DecodeMismatch | Source/AdvanceGameTools/Library/AGT_ActionFile.cpp:1921-2031 | a tree whose shape does not fit an array, set, map, struct or non-native object target (including `Null` into a struct) succeeds and changes nothing |
| JsonCodecProps.DecodeFieldsMissing | Source/AdvanceGameTools/Library/AGT_ActionFile.cpp:1991-1998 | the struct loop leaves a field alone that has no entry under its internal name |
| JsonCodecProps.DecodeFieldsFound | Source/AdvanceGameTools/Library/AGT_ActionFile.cpp:1991-1998 | a struct loop that succeeded decoded every field with an internal-name entry from that entry |
| JsonCodecProps.DecodeStruct | Source/AdvanceGameTools/Library/AGT_ActionFile.cpp:1985-2000 | a struct decoded from an object looks fields up by internal name only; missing fields are untouched and, on success, present ones hold their decoded value |
| XmlText.XmlEscapeChars | Source/AdvanceGameTools/Library/AGT_ActionFile.cpp:744-750 | (function) three `ReplaceInline` passes: `&`, then `<`, then `>` |
| XmlText.EscapePass | Source/AdvanceGameTools/Library/AGT_ActionFile.cpp:746-748 | each `ReplaceInline` pass of the escaper replaces its one character throughout the text left by the earlier passes |
| XmlText.ConvertPass | Source/AdvanceGameTools/Library/AGT_ActionFile.cpp:754-756 | each `ReplaceInline` pass of the converter undoes the matching escaping pass |
| XmlText.EscapeCharwise | Source/AdvanceGameTools/Library/AGT_ActionFile.cpp:744-750 | escaping replaces each `&`, `<` and `>` by its entity, character by character, with no double escaping |
| XmlText.ConvertEscape | Source/AdvanceGameTools/Library/AGT_ActionFile.cpp:744-758 | `XmlConvertChars(XmlEscapeChars(s)) == s` for every text |
| XmlText.EscapeNoAngles | Source/AdvanceGameTools/Library/AGT_ActionFile.cpp:744-750 | escaped text contains no `<` and no `>` |
| XmlText.EscapePlain | Source/AdvanceGameTools/Library/AGT_ActionFile.cpp:744-750 | text without `&`, `<` and `>` is written as it is |
| XmlText.ConvertPlain | Source/AdvanceGameTools/Library/AGT_ActionFile.cpp:752-758 | text without `&` is read as it is |
| XmlText.XmlConvertChars | Source/AdvanceGameTools/Library/AGT_ActionFile.cpp:752-758 | (function) three `ReplaceInline` passes in the reverse order: `&gt;`, `&lt;`, then `&amp;`; `ConvertEscape` and `ConvertPlain` state its results |
| XmlCodec.CreateTagNode | Source/AdvanceGameTools/Library/AGT_ActionFile.cpp:598-612 | the content becomes line terminator + `2·Depth` blanks + `<Tag>` + content + (with `WithCR`: line terminator + the same blanks) + `</Tag>`, and the content can be cut back out |
| XmlCodec.AnyStructToXmlValue | Source/AdvanceGameTools/Library/AGT_ActionFile.cpp:436-442 | a missing descriptor or value gives empty text |
| XmlCodec.AnyStructToXmlString | Source/AdvanceGameTools/Library/AGT_ActionFile.cpp:423-434 | fails, leaving the text as it was, exactly for a missing descriptor or address; otherwise the declaration, then the encoded tree laid out at depth 1 inside a `root` tag |
| XmlCodec.FirstTagged | Source/AdvanceGameTools/Library/AGT_ActionFile.cpp:669-671 | the first node with the tag, or none when no node has it |
| XmlCodec.FindChildNode | Source/AdvanceGameTools/Library/AGT_ActionFile.cpp:686-690 | a found node is a child with that tag; nothing is found exactly when no child has the tag |
| XmlCodec.NodesToJson | Source/AdvanceGameTools/Library/AGT_ActionFile.cpp:644-663 | one element per child node, child `i` read into element `i` |
| XmlCodec.MapNodeEntries | Source/AdvanceGameTools/Library/AGT_ActionFile.cpp:664-678 | one entry per map child, in order |
| XmlCodec.FieldNodeEntries | Source/AdvanceGameTools/Library/AGT_ActionFile.cpp:679-696 | one entry per declared field, in declaration order |
| XmlCodec.XmlNodeToAnyStruct | Source/AdvanceGameTools/Library/AGT_ActionFile.cpp:638-643 | a missing descriptor or node reads as `Null` |
| XmlCodec.XmlStringToAnyStruct | Source/AdvanceGameTools/Library/AGT_ActionFile.cpp:614-636 | empty text, a missing descriptor or address, or a load failure fail without writing; the tree read from the root is handed to the engine's conversion only when it is a non-empty array or object, and the verdict is the engine's |
| XmlCodecProps.TagNodeContent | Source/AdvanceGameTools/Library/AGT_ActionFile.cpp:598-612 | a tag node's length is the content's plus the tags', and the content sits between the opening and closing tags |
| XmlCodecProps.ListXmlConcat | Source/AdvanceGameTools/Library/AGT_ActionFile.cpp:449-455 | a list is written as its tagged elements one after the other |
| XmlCodecProps.XmlArrayLayout | Source/AdvanceGameTools/Library/AGT_ActionFile.cpp:443-462 | array elements are wrapped in `value` tags at the current depth, their content one level deeper, with a closing line break exactly for array and object elements |
| XmlCodecProps.XmlSetLayout | Source/AdvanceGameTools/Library/AGT_ActionFile.cpp:463-482 | set elements are laid out the same way in `item` tags |
| XmlCodecProps.MapXmlConcat | Source/AdvanceGameTools/Library/AGT_ActionFile.cpp:490-501 | a map is written as its entries one after the other |
| XmlCodecProps.XmlMapLayout | Source/AdvanceGameTools/Library/AGT_ActionFile.cpp:484-508 | each map entry is an `item` holding a `key` tag with the raw, unescaped key and a `value` tag with the value, in the tree's order |
| XmlCodecProps.FieldsXmlConcat | Source/AdvanceGameTools/Library/AGT_ActionFile.cpp:516-533 | the field loop writes the declared fields one after the other |
| XmlCodecProps.XmlFieldsLayout | Source/AdvanceGameTools/Library/AGT_ActionFile.cpp:510-577 | a struct or non-native object writes each declared field under whichever of its names the tree holds (authored first), and nothing for an absent one |
| XmlCodecProps.XmlLeaves | Source/AdvanceGameTools/Library/AGT_ActionFile.cpp:543-593 | scalar strings are escaped; `Null` and containers give nothing at a scalar; a native object's string is written unescaped; a shape mismatch gives nothing |
| XmlCodecProps.StringLeafRoundTrip | Source/AdvanceGameTools/Library/AGT_ActionFile.cpp:734-738 | a string leaf written by the writer (line 589) reads back as the same string |
| XmlCodecProps.BoolLeafRoundTrip | Source/AdvanceGameTools/Library/AGT_ActionFile.cpp:724-728 | a boolean leaf written by the writer (line 591) reads back as the same boolean |
| XmlCodecProps.ObjectLeafRoundTrip | Source/AdvanceGameTools/Library/AGT_ActionFile.cpp:699-706 | as written at line 549 and read back: an empty object node reads as `Null`; a native object's non-empty string reads back as itself |
| XmlCodecProps.ReadList | Source/AdvanceGameTools/Library/AGT_ActionFile.cpp:644-663 | an array or set reads one element per child node, in order |
| XmlCodecProps.ReadMapKeys | Source/AdvanceGameTools/Library/AGT_ActionFile.cpp:664-678 | a map's keys are unique and are exactly the contents of the `key` children of children that also have a `value` child |
| XmlCodecProps.ReadMapLastWins | Source/AdvanceGameTools/Library/AGT_ActionFile.cpp:673 | the last item with a key supplies its value |
| XmlCodecProps.ReadFieldKeys | Source/AdvanceGameTools/Library/AGT_ActionFile.cpp:679-722 | a struct or non-native object's keys are unique and are the internal names of the declared fields with a child under either name |
| XmlCodecProps.ReadFieldValue | Source/AdvanceGameTools/Library/AGT_ActionFile.cpp:686-693 | a declared field is read from the child under its authored name if there is one, else the child under its internal name |
| XmlCodecProps.ReadGate | Source/AdvanceGameTools/Library/AGT_ActionFile.cpp:629 | a scalar target, a native object, or a list or map without children never passes the commit gate |
| Csv.CSVToString | Source/AdvanceGameTools/Library/AGT_ActionFile.cpp:374-417 | succeeds exactly with headers and a data count that is a multiple of their number; on failure `Total` is 0 and `Result` is untouched; on success `Result` is the header line followed by every record's line and `Total` is records + 1 |
| Csv.HeaderRow | Source/AdvanceGameTools/Library/AGT_ActionFile.cpp:388-396 | the header loop writes the quoted headers joined by commas |
| Csv.AppendCell | Source/AdvanceGameTools/Library/AGT_ActionFile.cpp:404-408 | one loop step: a comma unless the row is empty, then the quoted cell |
| Csv.DataRows | Source/AdvanceGameTools/Library/AGT_ActionFile.cpp:398-415 | the data loop writes one line per `Headers.Num` cells, each when its last cell is reached |
| Csv.DataStep | Source/AdvanceGameTools/Library/AGT_ActionFile.cpp:401-414 | one iteration either closes the record, appending its line, or extends the open row |
| Csv.RowStep | Source/AdvanceGameTools/Library/AGT_ActionFile.cpp:404-408 | appending the next cell to the open row gives the row of one more cell |
| Csv.QuoteRoundTrip | Source/AdvanceGameTools/Library/AGT_ActionFile.cpp:395 | a quoted cell reads back as its text, whatever quotes, commas or line breaks it holds |
| Csv.HalveDoubled | Source/AdvanceGameTools/Library/AGT_ActionFile.cpp:395 | doubling the quotes and halving them again gives the text back |
| Csv.CsvLines | Source/AdvanceGameTools/Library/AGT_ActionFile.cpp:374-417 | the text is the header line followed by `Data.Num/Headers.Num` lines (`Total` in all); line `k + 1` is record `k`'s cells |
| Csv.DataLinesCount | Source/AdvanceGameTools/Library/AGT_ActionFile.cpp:409-414 | whole records give `end / width` lines |
| Csv.DataLinesRecord | Source/AdvanceGameTools/Library/AGT_ActionFile.cpp:409-414 | line `k` holds cells `k·width` to `(k+1)·width` |
| AdvanceArray.Minimum | Source/AdvanceGameTools/Library/AGT_AdvanceArray.cpp:39-51 | -1 for an empty array; otherwise the index of a smallest element, the first one among ties |
| AdvanceArray.Maximum | Source/AdvanceGameTools/Library/AGT_AdvanceArray.cpp:67-79 | -1 for an empty array; otherwise the index of a largest element, the first one among ties |
| AdvanceArray.Reverse | Source/AdvanceGameTools/Library/AGT_AdvanceArray.cpp:128-137 | the same length, and element `i` is input element `n-1-i` |
| AdvanceArray.Extract | Source/AdvanceGameTools/Library/AGT_AdvanceArray.cpp:326-338 | elements `StartIndex..EndIndex` inclusive when `StartIndex < EndIndex < Num`; empty otherwise |
| AdvanceArray.Clamped | Source/AdvanceGameTools/Library/AGT_AdvanceArray.cpp:251-269 | unchanged unless `Min < Max`; then every element lies in `[Min, Max]`, elements inside are kept, and the ones below or above become `Min` or `Max` |
| AdvanceArray.Clamp | Source/AdvanceGameTools/Library/AGT_AdvanceArray.cpp:251-269 | the caller's array is clamped in place, as the by-reference variants at lines 297-300 do |
| AdvanceArray.ClampInteger | Source/AdvanceGameTools/Library/AGT_AdvanceArray.cpp:271-274 | a clamped new array; the caller's array is untouched |
| AdvanceArray.Pieces | Source/AdvanceGameTools/Library/AGT_AdvanceArray.cpp:178-219 | splitting gives at least one piece |
| AdvanceArray.NonEmpty | Source/AdvanceGameTools/Library/AGT_AdvanceArray.cpp:178-219 | with empty pieces removed, no piece is empty |
| AdvanceArray.SplitFirst | Source/AdvanceGameTools/Library/AGT_AdvanceArray.cpp:186 | `FString::Split` succeeds exactly when the separator occurs; then the text is left + separator + right and the left part has no separator |
| AdvanceArray.SplitStep | Source/AdvanceGameTools/Library/AGT_AdvanceArray.cpp:184-217 | one split keeps the left part and continues on the right; with no separator left, the rest is kept by the same rule |
| AdvanceArray.SplitString | Source/AdvanceGameTools/Library/AGT_AdvanceArray.cpp:178-219 | the loop's result is the pieces between separators, without the empty ones when they are to be removed |
| AdvanceArray.PiecesJoin | Source/AdvanceGameTools/Library/AGT_AdvanceArray.cpp:178-219 | the pieces joined by the separator give the text back |
| AdvanceArray.PiecesFree | Source/AdvanceGameTools/Library/AGT_AdvanceArray.cpp:178-219 | no piece contains the separator |
| AdvanceArray.NonEmptyKeeps | Source/AdvanceGameTools/Library/AGT_AdvanceArray.cpp:189-209 | removing empty pieces keeps every non-empty piece the same number of times |
| AdvanceArray.SplitStringBySizeToArray | Source/AdvanceGameTools/Library/AGT_AdvanceArray.cpp:234-245 | the loop's result is the text cut into `Size`-character chunks |
| AdvanceArray.SplitStringBySizeToOneLine | Source/AdvanceGameTools/Library/AGT_AdvanceArray.cpp:221-232 | the same chunks, each followed by a line break |
| AdvanceArray.ChunksConcat | Source/AdvanceGameTools/Library/AGT_AdvanceArray.cpp:221-245 | the chunks concatenate to the text |
| AdvanceArray.ChunksSizes | Source/AdvanceGameTools/Library/AGT_AdvanceArray.cpp:221-245 | no chunks exactly for empty text; every chunk but the last has `Size` characters, and the last has 1 to `Size` |
| AdvanceArray.DirectionStrictWeak | Source/AdvanceGameTools/AGTDataTypes.h:63-68 | the reversed predicate `A > B` is a strict weak order when `<` is |
| AdvanceArray.Insert | Source/AdvanceGameTools/Library/AGT_AdvanceArray.cpp:420-432 | inserting adds exactly the element |
| AdvanceArray.InsertionSort | Source/AdvanceGameTools/Library/AGT_AdvanceArray.cpp:420-432 | the sorted sequence is a permutation of the input |
| AdvanceArray.InsertOrdered | Source/AdvanceGameTools/Library/AGT_AdvanceArray.cpp:420-432 | inserting into an ordered sequence keeps it ordered |
| AdvanceArray.InsertionSortOrdered | Source/AdvanceGameTools/Library/AGT_AdvanceArray.cpp:420-432 | the sorted sequence is ordered |
| AdvanceArray.Sort | Source/AdvanceGameTools/Library/AGT_AdvanceArray.cpp:420-432 | the caller's array (the by-reference variants at lines 492-505) becomes a permutation of itself, ordered by `<` ascending or by `A > B` descending, and is returned |
| AdvanceArray.IntLessStrictWeak | Source/AdvanceGameTools/Library/AGT_AdvanceArray.cpp:434-437 | `<` on integers is a strict weak order |
| AdvanceArray.SortInteger | Source/AdvanceGameTools/Library/AGT_AdvanceArray.cpp:434-437 | a permutation, non-decreasing when ascending, non-increasing otherwise |
| AdvanceArray.LexTotal | Source/AdvanceGameTools/Library/AGT_AdvanceArray.cpp:444-447 | lexicographic order is total and asymmetric |
| AdvanceArray.LexTrans | Source/AdvanceGameTools/Library/AGT_AdvanceArray.cpp:444-447 | lexicographic order is transitive |
| AdvanceArray.StringLessStrictWeak | Source/AdvanceGameTools/Library/AGT_AdvanceArray.cpp:444-447 | the case-insensitive `<` on strings is a strict weak order |
| AdvanceArray.SortString | Source/AdvanceGameTools/Library/AGT_AdvanceArray.cpp:444-447 | a permutation ordered case-insensitively, ascending or descending |
| AdvanceArray.MatchIndexes | Source/AdvanceGameTools/Library/AGT_AdvanceArray.cpp:800-817 | every matching index is within the array |
| AdvanceArray.Picks | Source/AdvanceGameTools/Library/AGT_AdvanceArray.cpp:800-817 | result `k` is the element at index `k` of the list |
| AdvanceArray.FilterMatches | Source/AdvanceGameTools/Library/AGT_AdvanceArray.cpp:800-817 | the matching indexes are appended to the caller's `Indexes` without clearing it; `Result[k]` is the element at the k-th of them; `bFound` holds exactly when something matched |
| AdvanceArray.MatchIndexesExact | Source/AdvanceGameTools/Library/AGT_AdvanceArray.cpp:800-817 | the indexes strictly increase, each one matches, and no matching index is missing |
| AdvanceArray.FilterMatch | Source/AdvanceGameTools/Library/AGT_AdvanceArray.cpp:819-836 | the first matching element and its index, or `""` and -1 when nothing matches |
| AdvanceArray.PredicateFilter | Source/AdvanceGameTools/Library/AGT_AdvanceArray.cpp:842-917 | every kept element satisfies predicate XOR `InvertResult` |
| AdvanceArray.PredicateFilterAppend | Source/AdvanceGameTools/Library/AGT_AdvanceArray.cpp:842-917 | filtering keeps the input order: a concatenation filters part by part |
| AdvanceArray.PredicateFilterSplit | Source/AdvanceGameTools/Library/AGT_AdvanceArray.cpp:842-917 | the plain and the inverted filter split the array between them, so no element is lost or duplicated |
| ActionStr.FString.constructor | Source/AdvanceGameTools/Library/AGT_ActionStr.cpp:157-162 | a string holding the given characters |
| ActionStr.FString.SetChar | Source/AdvanceGameTools/Library/AGT_ActionStr.cpp:21-30 | only position `CharIndex` changes, to `CharIn`'s first character; an index out of range or an empty `CharIn` changes nothing |
| ActionStr.FString.GetChar | Source/AdvanceGameTools/Library/AGT_ActionStr.cpp:32-43 | the one-character string at the index, or `""` out of range |
| ActionStr.FString.PopChar | Source/AdvanceGameTools/Library/AGT_ActionStr.cpp:45-52 | removes exactly the last character; an empty string is left alone |
| ActionStr.FString.PushChar | Source/AdvanceGameTools/Library/AGT_ActionStr.cpp:54-62 | appends exactly `CharIn`'s first character; an empty `CharIn` changes nothing |
| ActionStr.FString.FillString | Source/AdvanceGameTools/Library/AGT_ActionStr.cpp:64-79 | the string becomes exactly `NumChars` copies of `CharIn`'s first character, whatever it held; otherwise nothing changes |
| ActionStr.FString.SetReserved | Source/AdvanceGameTools/Library/AGT_ActionStr.cpp:81-87 | the characters are untouched; a positive request grows the capacity to at least that much |
| ActionStr.FString.Reserve | Source/AdvanceGameTools/Library/AGT_ActionStr.cpp:85 | the characters are untouched; the capacity becomes at least `n` |
| ActionStr.FString.AppendTo | Source/AdvanceGameTools/Library/AGT_ActionStr.cpp:89-93 | the string becomes itself followed by the appendage |
| ActionStr.FString.AppendStringsTo | Source/AdvanceGameTools/Library/AGT_ActionStr.cpp:95-109 | the string becomes itself followed by the appendages in order, after one reservation for all of them |
| ActionStr.FString.ToTitleStringInline | Source/AdvanceGameTools/Library/AGT_ActionStr.cpp:132-155 | same length; whitespace untouched; the first character after whitespace or at the start is upper-cased, every other one lower-cased |
| ActionStr.ToTitleString | Source/AdvanceGameTools/Library/AGT_ActionStr.cpp:157-162 | the title-cased copy; the argument is unchanged |
| ActionStr.TitleCasedUnique | Source/AdvanceGameTools/Library/AGT_ActionStr.cpp:132-162 | the title case of a text is determined by it, so the copy and the in-place version agree |
| ActionStr.CharToBytes | Source/AdvanceGameTools/Library/AGT_ActionStr.cpp:111-130 | (0, 0) out of range; otherwise two bytes, the low one first, that make up the 16-bit character |
| ActionMath.TDivRemainder | Source/AdvanceGameTools/Library/AGT_ActionMath.cpp:277 | C++ truncating division leaves a remainder with the dividend's sign, smaller in size than the divisor |
| ActionMath.RoundToLowerMultiple | Source/AdvanceGameTools/Library/AGT_ActionMath.cpp:275-283 | the result is a multiple of `Multiple`; both quotients, `A / Multiple` and with `SkipSelf` `(A - 1) / Multiple`, are required to fit in int32 |
| ActionMath.RoundToNearestMultiple | Source/AdvanceGameTools/Library/AGT_ActionMath.cpp:294-297 | the result is a multiple of `Multiple` |
| ActionMath.LowerBelow | Source/AdvanceGameTools/Library/AGT_ActionMath.cpp:275-283 | for `A >= 0` and `Multiple > 0`: `r <= A < r + Multiple` |
| ActionMath.LowerTowardZero | Source/AdvanceGameTools/Library/AGT_ActionMath.cpp:275-283 | a negative `A` is rounded toward zero: `r - Multiple < A <= r` |
| ActionMath.LowerSkipSelf | Source/AdvanceGameTools/Library/AGT_ActionMath.cpp:278-282 | with `SkipSelf`, a positive multiple steps down to `A - Multiple` |
| ActionMath.LowerSkipSelfZero | Source/AdvanceGameTools/Library/AGT_ActionMath.cpp:278-282 | with `SkipSelf`, 0 stays 0 |
| ActionMath.RoundToUpperMultiple | Source/AdvanceGameTools/Library/AGT_ActionMath.cpp:285-292 | for a non-zero `Multiple` the result is a multiple of it; `UpperKeepsMultiple` and `UpperAbove` state which one |
| ActionMath.UpperKeepsMultiple | Source/AdvanceGameTools/Library/AGT_ActionMath.cpp:285-292 | without `SkipSelf`, a non-negative multiple is returned as it is |
| ActionMath.UpperAbove | Source/AdvanceGameTools/Library/AGT_ActionMath.cpp:285-292 | otherwise the result is the least multiple strictly above `A` |
| ActionMath.NearestBounds | Source/AdvanceGameTools/Library/AGT_ActionMath.cpp:294-297 | `r <= A + Multiple/2 < r + Multiple`, so halves round up |
| ActionJson.JsonObject.constructor | Source/AdvanceGameTools/Library/AGT_ActionJSON.cpp:10-15 | `JsonMake`: a new object with no fields |
| ActionJson.JsonSetField | Source/AdvanceGameTools/Library/AGT_ActionJSON.cpp:17-33 | with valid handles the shared object's field is set, overwriting a present one, keys staying unique; an invalid value changes nothing; the same handle is returned |
| ActionJson.JsonRemoveField | Source/AdvanceGameTools/Library/AGT_ActionJSON.cpp:56-63 | on a valid handle the field is removed; the same handle is returned |
| ActionJson.JsonHasField | Source/AdvanceGameTools/Library/AGT_ActionJSON.cpp:35-42 | true exactly for a valid handle whose object has the key |
| ActionJson.JsonHasTypedField | Source/AdvanceGameTools/Library/AGT_ActionJSON.cpp:44-54 | true exactly when the field exists with that type, so it implies `JsonHasField` |
| ActionJson.NoFieldTypedNone | Source/AdvanceGameTools/Library/AGT_ActionJSON.cpp:44-54 | no field has the type `None` |
| ActionJson.SetThenHas | Source/AdvanceGameTools/Library/AGT_ActionJSON.cpp:26-33 | after setting, the field holds the value and every other field is as it was |
| ActionJson.RemoveThenHasNot | Source/AdvanceGameTools/Library/AGT_ActionJSON.cpp:56-63 | after removal, `JsonHasField` is false for the key and every other field is as it was |
| ActionJson.Valids | Source/AdvanceGameTools/Library/AGT_ActionJSON.cpp:133-146 | at most as many values as handles |
| ActionJson.JsonMakeArray | Source/AdvanceGameTools/Library/AGT_ActionJSON.cpp:133-146 | an array value of the valid inputs in order, invalid ones dropped |
| ActionJson.ValidsMembers | Source/AdvanceGameTools/Library/AGT_ActionJSON.cpp:133-146 | a value is kept exactly when it is valid in the input |
| ActionJson.ValidsAppend | Source/AdvanceGameTools/Library/AGT_ActionJSON.cpp:133-146 | the order of the input is kept |
| ActionJson.JsonType | Source/AdvanceGameTools/Library/AGT_ActionJSON.cpp:162-169 | `None` exactly for an invalid value, else the value's type |
| ActionJson.JsonIsNull | Source/AdvanceGameTools/Library/AGT_ActionJSON.cpp:171-178 | true exactly for an invalid value or a `Null` value |
| ActionJson.IsNullByType | Source/AdvanceGameTools/Library/AGT_ActionJSON.cpp:162-178 | null exactly when the type is `None` or `Null` |
| ActionJson.EquaEqual | Source/AdvanceGameTools/Library/AGT_ActionJSON.cpp:180-196 | two invalid values are equal; a valid and an invalid one are not; two valid ones are compared by the engine |
| ActionJson.NotEqual | Source/AdvanceGameTools/Library/AGT_ActionJSON.cpp:198-214 | two invalid values are not unequal, a valid and an invalid one are, and two valid ones are unequal exactly when the engine's comparison says they differ |
| ActionJson.NotEqualNegates | Source/AdvanceGameTools/Library/AGT_ActionJSON.cpp:198-214 | `NotEqual_JsonValue` is exactly the negation of `EquaEqual_JsonValue` |
| ActionJson.ToString | Source/AdvanceGameTools/Library/AGT_ActionJSON.cpp:216-224 | `""` for an invalid value, the engine's text otherwise |
| ActionJson.ToInteger | Source/AdvanceGameTools/Library/AGT_ActionJSON.cpp:226-235 | 0 for an invalid value, the engine's number otherwise |
| ActionJson.ToFloat | Source/AdvanceGameTools/Library/AGT_ActionJSON.cpp:237-244 | 0.0 for an invalid value, the engine's number otherwise |
| ActionJson.ToBool | Source/AdvanceGameTools/Library/AGT_ActionJSON.cpp:246-253 | false for an invalid value, the engine's boolean otherwise |
| ActionJson.ToArray | Source/AdvanceGameTools/Library/AGT_ActionJSON.cpp:255-273 | one valid handle per element of an array value, in order; empty for any other value and for an invalid one |
| ActionJson.ArrayRoundTrip | Source/AdvanceGameTools/Library/AGT_ActionJSON.cpp:255-273 | JsonMakeArray (lines 133-146) applied to the handles Conv_JsonValueToArray returns for an array value rebuilds the same elements |
| ActionJson.ToObject | Source/AdvanceGameTools/Library/AGT_ActionJSON.cpp:274-282 | a valid handle exactly for a valid value: an object value's fields, or for any other value the one shared empty object `AsObject()` falls back on; an invalid value gives an invalid handle |
| ActionJson.SharedEmptyObject | Source/AdvanceGameTools/Library/AGT_ActionJSON.cpp:274-282 | a field set through the object handle of a number is read back through the object handle of a null, since both refer to the same fallback object |

## Left out

- The engine code the core calls is taken as given, passed in as function values with no contract:
  - leaf conversion (`FJsonObjectConverter`) in both directions, `ExportTextItem` and `JsonObjectToUStruct`;
  - object construction (`StaticAllocateObject` with the class constructor);
  - the JSON reader and writer, the XML loader (`FXmlFile`), `SanitizeFloat` and `Atod`;
  - `FChar` classification and case mapping, regex matching, and filter delegates.
- File I/O, Base64, CSV parsing, config files, the DataTable exporters, randomness, async tasks, and engine, UI and platform glue are outside this model. So are the floating-point, vector and actor variants of the array utilities.
- The `_ClassName` field the decoder adds to a non-native object's JSON is added to a copy of the members. The caller's tree is not changed, though in the engine it is.
- Memory is a value. Two addresses that alias each other, or a write seen through another pointer, are not captured. A UObject reached twice is two copies.
- Set and map decoding append new slots at the end. The engine can reuse a free slot; that is not modelled. Rehash is a flag on the container. The same holds for the fields of a JSON object: a field added after a removal is appended here, while `TMap::Add` may put it in the freed slot, so the iteration order of an object's fields after a removal is not modelled.
- Key comparison in `TMap<FString, …>` and `FXmlNode::FindChildNode` is case-insensitive in the engine. Here it is exact equality.
- Descriptors are a finite datatype, so cyclic class graphs (a class holding a pointer to its own class) cannot be expressed.
- The XML writer's warning for a native object whose value is not a string is not logged. The output (nothing) is modelled.
- JsonCodecProps.EncodeStruct: only for structs whose fields have distinct authored names, as in any engine struct.
- JsonCodecProps.EncodeObject: only for classes whose fields have distinct authored names.
- JsonCodecProps.NormalizeFieldValue: only for classes whose fields have distinct internal names.
- XmlCodecProps.ReadFieldValue: only for classes whose fields have distinct internal names.
- XmlCodec.CreateTagNode: integer width is not modelled; `Depth * 2` cannot overflow here.
- Csv.CSVToString: integer width is not modelled; `Count` cannot overflow here.
- ActionMath.RoundToUpperMultiple: its multiple test is the engine's float `Fmod`. It is modelled exactly only for magnitudes below 2^24, where floats represent every integer, so the function requires that. Its own `ensures` says only that the result is a multiple; `UpperKeepsMultiple` and `UpperAbove` state its value.
- ActionMath.RoundToLowerMultiple and ActionMath.RoundToNearestMultiple: the bounds lemmas cover `Multiple > 0`. A negative `Multiple` is admitted, but the only thing stated for it is that the result is a multiple.
- AdvanceArray.Sort: the engine's sort is unstable, and the order among equivalent elements is not stated. Only permutation and order are.
- AdvanceArray.Extract: a negative `StartIndex` reads out of bounds in the engine, so it is excluded by the precondition.
- AdvanceArray.SplitStringBySizeToArray: a non-empty text with `Size <= 0` never terminates in the engine, so it is excluded by the precondition. The same holds for `SplitStringBySizeToOneLine`.
- AdvanceArray.SplitString: an empty separator is excluded by the precondition, since `Find` of an empty string matches at once and the engine's loop never ends. The search is case-sensitive: the `SearchCase` parameter is fixed to `ESearchCase::CaseSensitive`, and the case-insensitive search is not modelled.
- XmlText.XmlConvertChars: the engine's `ReplaceInline` ignores case by default, so it also turns `&GT;`, `&Lt;` and the like into characters. Here the entities are matched exactly. Escaping is not affected, since `&`, `<` and `>` have no case, and the round trip `ConvertEscape` holds in both readings.
- AdvanceArray.SortString: `FString`'s `<` folds only ASCII letters here. The engine's `Stricmp` also folds other characters.
- ActionStr.CharToBytes: characters beyond 16 bits are truncated to their low 16 bits.
- ActionStr.FString.SetReserved: capacity is a plain number; allocation slack is not modelled.
- `JsonMakeString`, `JsonMakeInt`, `JsonMakeFloat`, `JsonMakeBool`, `JsonMakeObject` and `JsonMakeNull` wrap a scalar in a value handle. They are not modelled, and neither are `Conv_JsonObjectToJsonValue` and the object-to-string conversions, which go through the engine's reader and writer.
- A value handle is a snapshot of its value. `ActionJson.ToObject` gives an object value a new `JsonObject` holding its fields, so an object reached through a value handle is not shared with the value it came from. The fallback empty object that every non-object value gives is shared, as in the engine.
