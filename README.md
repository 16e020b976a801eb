# Qt Creator debugging helpers, Python editing and device setup — a verified model

This project models five pieces of Qt Creator in Dafny and proves properties of them.

- **The debugging-helper dumper** (`gdbmacros.cpp`) is loaded into the debugged program. It answers the debugger's requests for the contents of Qt and standard-library objects. A request names an outer type, an `iname`, an expression and an inner type. The inner type is cut at its `@` separators into template parameters. The reply is a list of `key="value"` entries, hashes and child lists. It is written into a 1,000,000-character output buffer that stops accepting characters 100 characters before its end. A marker character tells the debugger whether the reply is unfinished (`f`), complete (`t`) or cut short (`+`).
  - `Wire` states the writer algebra: every sequence of writes leaves the buffer holding exactly the first `FillLimit` characters of the reply the dumper meant to write (`Wire.RunObserved`).
  - `Dumper` is the `QDumper` object over an `array<char>`. Each output helper is proved against that algebra.
  - `Base64` proves that the base64 encoding of byte and string values decodes back.
  - `TemplateParams` proves that the cut inner type reads back as its parameters.
  - `TypeNames` covers the type-name helpers, the `QHash` node offsets and handler selection.
  - `Containers` covers the `QList`, `QVector`, `QStringList` and `std::vector` dumpers.
  - `Dispatch` covers request parsing, dispatch and the `qDumpUnknown` fallback. `Dispatch.ReplyFinished` proves that a protocol 2 or 3 reply always reaches the debugger marked finished.
- **The Python parser's token stream** (`tokenstream.h`) is modelled as a class over a growable token array with a count and a read cursor.
- **The Memcheck settings** (`memchecksettings.cpp`) cover:
  - the options shared by the global and the project settings, and their map round trips;
  - the global list of suppression files;
  - the project's overlay on that list. The proofs show that adding and removing files does what a user expects of the effective list.
- **The device configuration wizard** (`maemodeviceconfigwizard.cpp`) covers:
  - the pages' completeness rules;
  - `nextId`, which proves that the wizard always reaches its final page;
  - what each page stores;
  - the configuration `createDeviceConfig` adds, under the first free name.
- **The Python indenter** (`pythonindenter.cpp`) computes the indentation of a new line from the previous one and a remembered unsigned indentation.

Widgets, files, the debugged program's memory and the global settings object are inputs to the operations here. Each is a parameter or a field. `QtText` holds the two pieces of Qt string handling that the wizard and the indenter use: `QChar::isSpace` and `QString::trimmed`.

The model follows the code where the system's design description differs from it. The description says a request no handler accepted gets a reply carrying only `value`, `type` and `numchild="0"`. The code appends those three entries after the `iname`, the `addr` and whatever the handler wrote before giving up (`gdbmacros.cpp:3396-3397`). `Dispatch.Protocol23Nodes` and `Dispatch.Fallback` state the code's behaviour.

The arithmetic is modelled explicitly where its width matters:

- The indenter's remembered indentation is a 32-bit `unsigned`. `Indenter.Unsigned` wraps it.
- `std::vector` sizes divide with truncation toward zero (`Containers.TruncDiv`).

The build assumed is a GUI build of Qt 4.5 or later, without `QT_NAMESPACE`, on a little-endian machine.

## Model

| member | source | states |
|---|---|---|
| `Base64.CharValue` | share/qtcreator/gdbmacros/gdbmacros.cpp:702-703 | the position of a character in the 64-character alphabet is below 64 |
| `Base64.AlphabetCharValue` | share/qtcreator/gdbmacros/gdbmacros.cpp:702-703 | every alphabet entry is an alphabet character and its position reads back as its index |
| `Base64.Chunk` | share/qtcreator/gdbmacros/gdbmacros.cpp:711-721 | three bytes shifted together make a 24-bit group |
| `Base64.Quad` | share/qtcreator/gdbmacros/gdbmacros.cpp:723-730 | one group becomes exactly four characters |
| `Base64.DecodeQuad` | share/qtcreator/gdbmacros/gdbmacros.cpp:700-732 | decoding a quad gives one to three bytes, fewer when `=` pads it |
| `Base64.EncodeLength` | share/qtcreator/gdbmacros/gdbmacros.cpp:700-732 | n bytes encode to exactly 4·⌈n/3⌉ characters |
| `Base64.QuadChars` | share/qtcreator/gdbmacros/gdbmacros.cpp:723-730 | each quad character is from the alphabet or `=`; an unpadded quad has no `=` |
| `Base64.EncodeChars` | share/qtcreator/gdbmacros/gdbmacros.cpp:700-732 | every encoded character is from `A–Z a–z 0–9 + /` or is `=`, so no wire delimiter appears in an encoded value |
| `Base64.QuadPadding` | share/qtcreator/gdbmacros/gdbmacros.cpp:713-730 | in one quad exactly the last `padlen` characters are `=` |
| `Base64.EncodePadding` | share/qtcreator/gdbmacros/gdbmacros.cpp:700-732 | `=` appears only at the end: two after a lone trailing byte, one after two, none after a full group |
| `Base64.QuadRoundTrip` | share/qtcreator/gdbmacros/gdbmacros.cpp:711-730 | decoding the quad of a group gives back its one, two or three bytes |
| `Base64.DecodeEncode` | share/qtcreator/gdbmacros/gdbmacros.cpp:700-732 | decoding the encoding of any byte string gives the byte string back (RFC 4648 section 4 round trip) |
| `Base64.Encode` | share/qtcreator/gdbmacros/gdbmacros.cpp:700-732 | definition (no ensures): one quad per three bytes, the last one padded; `EncodeLength`, `EncodeChars`, `EncodePadding` and `DecodeEncode` state its length, alphabet, padding and round trip |
| `Wire.Put` | share/qtcreator/gdbmacros/gdbmacros.cpp:582-588 | `put(char)` keeps the buffer invariant and either appends the character or, once full, nothing |
| `Wire.PutAll` | share/qtcreator/gdbmacros/gdbmacros.cpp:664-671 | writing a string character by character keeps the buffer invariant |
| `Wire.IdealComma` | share/qtcreator/gdbmacros/gdbmacros.cpp:691-698 | `putCommaIfNeeded` adds at most one comma |
| `Wire.Observed` | share/qtcreator/gdbmacros/gdbmacros.cpp:685-689 | the buffer holds a prefix of the intended reply of at most `FillLimit` characters, and `full` is set exactly when something was cut off |
| `Wire.PutObserved` | share/qtcreator/gdbmacros/gdbmacros.cpp:582-588 | `put(char)` on a clipped reply is the clipped reply with the character added |
| `Wire.PutAllObserved` | share/qtcreator/gdbmacros/gdbmacros.cpp:664-671 | writing a string keeps the buffer equal to the clipped intended reply |
| `Wire.CommaObserved` | share/qtcreator/gdbmacros/gdbmacros.cpp:691-698 | the comma rule acts on the clipped reply as on the intended one |
| `Wire.RunObserved` | share/qtcreator/gdbmacros/gdbmacros.cpp:582-698 | whatever sequence of writes the dumper makes, the buffer holds the first `FillLimit` characters of the reply it meant to write and `full` says whether any were lost |
| `Wire.RunAppend` | share/qtcreator/gdbmacros/gdbmacros.cpp:582-698 | two runs of writes one after the other are one run of both |
| `Wire.IdealAppend` | share/qtcreator/gdbmacros/gdbmacros.cpp:582-698 | the same for the unlimited reply |
| `Wire.PutAllAppend` | share/qtcreator/gdbmacros/gdbmacros.cpp:664-671 | writing two strings is writing their concatenation |
| `Wire.Text` | share/qtcreator/gdbmacros/gdbmacros.cpp:739-787 | the text of every entry ends in `}`, `"` or `]`, the characters after which a comma is due |
| `Wire.NodeEmit` | share/qtcreator/gdbmacros/gdbmacros.cpp:480-484 | writing an entry through `putItem`, `beginHash`/`endHash` or `beginChildren`/`endChildren` adds a comma exactly when one is due, then the entry's text |
| `Wire.OpenEmit` | share/qtcreator/gdbmacros/gdbmacros.cpp:739-787 | an opener, the entries inside it with no leading comma, then the closer |
| `Wire.NodesEmit` | share/qtcreator/gdbmacros/gdbmacros.cpp:691-698 | writing a list of entries gives their comma-separated text, with a comma in front only when the text so far ends in a closer |
| `Wire.CommaAfter` | share/qtcreator/gdbmacros/gdbmacros.cpp:691-698 | after any entry a comma is always due |
| `Wire.PutFour` | share/qtcreator/gdbmacros/gdbmacros.cpp:727-730 | the four `put(char)` calls of a base64 group write the quad |
| `Wire.InvObserved` | share/qtcreator/gdbmacros/gdbmacros.cpp:582-689 | every buffer state the invariant allows is the clipped form of some intended reply |
| `Wire.SameIdealSameRun` | share/qtcreator/gdbmacros/gdbmacros.cpp:582-698 | two sequences of writes that mean the same reply leave the same buffer |
| `Wire.NodeFlat` | share/qtcreator/gdbmacros/gdbmacros.cpp:739-787 | writing an entry piece by piece leaves the buffer as writing its text at once does |
| `TemplateParams.Starts` | share/qtcreator/gdbmacros/gdbmacros.cpp:560-580 | the first parameter starts at offset 0 |
| `TemplateParams.StartsShape` | share/qtcreator/gdbmacros/gdbmacros.cpp:569-577 | the recorded starts are increasing, each right after an `@`, and no `@` follows the last one |
| `TemplateParams.Blank` | share/qtcreator/gdbmacros/gdbmacros.cpp:572-573 | the cut text has the same length, with NUL exactly where `@` was |
| `TemplateParams.Split` | share/qtcreator/gdbmacros/gdbmacros.cpp:560-580 | there is one parameter per recorded start |
| `TemplateParams.SplitJoin` | share/qtcreator/gdbmacros/gdbmacros.cpp:560-580 | joining the parameters with `@` gives the inner type back, so the cutting loses nothing |
| `TemplateParams.ParamsAreSegments` | share/qtcreator/gdbmacros/gdbmacros.cpp:569-577 | after the cut, the C string at the p-th recorded start is exactly the p-th parameter |
| `TemplateParams.CStringWindow` | share/qtcreator/gdbmacros/gdbmacros.cpp:569-577 | a C string read in a NUL-terminated window of the request buffer is the same read in the window alone |
| `TemplateParams.StoreSlotsCount` | share/qtcreator/gdbmacros/gdbmacros.cpp:569-577 | as written, the k-th `@` stores into slot k+1 with no check of the table size |
| `TemplateParams.StoreOverrun` | share/qtcreator/gdbmacros/gdbmacros.cpp:533-534 | as written, an inner type with more than ten `@`s stores into slot 11 of the 11-slot table |
| `TemplateParams.ElevenSeparators` | share/qtcreator/gdbmacros/gdbmacros.cpp:560-580 | the inner type `@@@@@@@@@@@` is such an input |
| `Dumper.Utf16Bytes` | share/qtcreator/gdbmacros/gdbmacros.cpp:679-683 | a `QString` of n code units is sent as 2n bytes |
| `Dumper.QDumper.St` | share/qtcreator/gdbmacros/gdbmacros.cpp:458-542 | the dumper's buffer and position always make a writer state within the buffer invariant |
| `Dumper.QDumper.constructor` | share/qtcreator/gdbmacros/gdbmacros.cpp:545-551 | a new reply holds just the marker `f`, is not full and not disarmed |
| `Dumper.QDumper.CheckFill` | share/qtcreator/gdbmacros/gdbmacros.cpp:685-689 | `full` becomes set once the position reaches 100 characters before the end of the buffer, and stays set |
| `Dumper.QDumper.Put` | share/qtcreator/gdbmacros/gdbmacros.cpp:582-588 | stores the character at `pos` unless the buffer is full |
| `Dumper.QDumper.PutString` | share/qtcreator/gdbmacros/gdbmacros.cpp:664-671 | writes the string through `put(char)`, character by character |
| `Dumper.QDumper.PutCommaIfNeeded` | share/qtcreator/gdbmacros/gdbmacros.cpp:691-698 | writes a comma exactly when the last character is `}`, `"` or `]` |
| `Dumper.QDumper.PutBase64Encoded` | share/qtcreator/gdbmacros/gdbmacros.cpp:700-732 | the loop writes exactly the base64 encoding of the buffer, clipped like any other output |
| `Dumper.QDumper.Disarm` | share/qtcreator/gdbmacros/gdbmacros.cpp:734-737 | marks the reply as complete and changes nothing else |
| `Dumper.QDumper.BeginHash` | share/qtcreator/gdbmacros/gdbmacros.cpp:739-743 | a comma if one is due, then `{` |
| `Dumper.QDumper.EndHash` | share/qtcreator/gdbmacros/gdbmacros.cpp:745-748 | `}` |
| `Dumper.QDumper.BeginChildren` | share/qtcreator/gdbmacros/gdbmacros.cpp:778-782 | a comma if one is due, then `children=[` |
| `Dumper.QDumper.EndChildren` | share/qtcreator/gdbmacros/gdbmacros.cpp:784-787 | `]` |
| `Dumper.QDumper.BeginItem` | share/qtcreator/gdbmacros/gdbmacros.cpp:767-771 | a comma if one is due, then the key, `=` and the opening quote |
| `Dumper.QDumper.EndItem` | share/qtcreator/gdbmacros/gdbmacros.cpp:773-776 | the closing quote |
| `Dumper.QDumper.PutItem` | share/qtcreator/gdbmacros/gdbmacros.cpp:480-484 | `putItem(name, value)` writes exactly the entry `name="value"`, with a comma before it when one is due |
| `Dumper.QDumper.PutItemNumber` | share/qtcreator/gdbmacros/gdbmacros.cpp:640-644 | a number item is the entry `name="<decimal>"`; with the full flag honoured it writes nothing once the buffer is full |
| `Dumper.QDumper.PutItemEncoded` | share/qtcreator/gdbmacros/gdbmacros.cpp:673-683 | a byte-array or string item is the entry whose value is the base64 text |
| `Dumper.QDumper.PutItemCount` | share/qtcreator/gdbmacros/gdbmacros.cpp:756-760 | writes the entry `name="<n items>"` |
| `Dumper.QDumper.PutEllipsis` | share/qtcreator/gdbmacros/gdbmacros.cpp:750-754 | writes the entry `{name="<incomplete>",value="",type="T"}` for the inner type T |
| `Dumper.QDumper.SetupTemplateParameters` | share/qtcreator/gdbmacros/gdbmacros.cpp:560-580 | every `@` of the inner type becomes a NUL and nothing else in the request buffer changes; slot p holds the start of parameter p and reads back as that parameter; slots past the last parameter are empty; the reply is untouched |
| `Dumper.QDumper.Finish` | share/qtcreator/gdbmacros/gdbmacros.cpp:553-558 | the reply gets its terminating NUL; a disarmed reply's marker becomes `t`, or `+` when it was cut short; a reply never disarmed keeps `f` |
| `Dumper.CutParameters` | share/qtcreator/gdbmacros/gdbmacros.cpp:569-577 | the scanning loop cuts the inner type at every `@` and records the first eleven parameter starts |
| `Dumper.SkipToSeparator` | share/qtcreator/gdbmacros/gdbmacros.cpp:570-571 | the inner loop stops at the next `@` or the terminating NUL without passing a parameter start |
| `Dumper.ScanDone` | share/qtcreator/gdbmacros/gdbmacros.cpp:569 | the scan stops only at the NUL that ends the inner type, with every `@` cut |
| `Dumper.RecordCut` | share/qtcreator/gdbmacros/gdbmacros.cpp:572-576 | each new parameter start goes into the next slot while there is one |
| `Dumper.ParamsRead` | share/qtcreator/gdbmacros/gdbmacros.cpp:560-580 | once the inner type is cut, each recorded start reads back as its parameter |
| `Dumper.EllipsisText` | share/qtcreator/gdbmacros/gdbmacros.cpp:750-754 | the raw text `putEllipsis` writes is the text of a hash of three items |
| `Dumper.Base64Step` | share/qtcreator/gdbmacros/gdbmacros.cpp:711-730 | one round of the base64 loop writes the quad of the next group and leaves the encoding of the rest to write |
| `Dumper.NumberOverrun` | share/qtcreator/gdbmacros/gdbmacros.cpp:590-644 | as written, the children 900–999 of a list, each with a number item, drive `pos` 200 characters past the end of the 1,000,000-character buffer once it is full |
| `Dumper.NameItemsGrow` | share/qtcreator/gdbmacros/gdbmacros.cpp:1668-1670 | as written, a full buffer still grows by three digits for every child index from 100 to 999 |
| `Dumper.NumberWhenFull` | share/qtcreator/gdbmacros/gdbmacros.cpp:582-588 | with numbers written through `put(char)`, a full buffer is left as it is |
| `Dumper.Reply` | share/qtcreator/gdbmacros/gdbmacros.cpp:552-557 | definition (no ensures): the buffer with a closing NUL, its first character replaced by `+` or `t` on success; `Dispatch.ReplyShape` and `Dispatch.ReplyFinished` state what the debugger reads |
| `Dumper.EllipsisNode` | share/qtcreator/gdbmacros/gdbmacros.cpp:750-754 | definition (no ensures): the `<incomplete>` entry; `Containers.EnumeratedShape` states where it appears |
| `Dumper.CountNode` | share/qtcreator/gdbmacros/gdbmacros.cpp:756-760 | definition (no ensures): `name="<n items>"`; `Dumper.QDumper.PutItemCount` writes it |
| `Dumper.QDumper.PutChunk` | share/qtcreator/gdbmacros/gdbmacros.cpp:711-730 | one round of the base64 loop: consumes one to three bytes, pads only at the end, and what it writes followed by the encoding of the rest is the encoding from where it started |
| `Dumper.ResetSlots` | share/qtcreator/gdbmacros/gdbmacros.cpp:564-567 | the first slot holds the inner type, every other slot is null |
| `Dumper.NextParameter` | share/qtcreator/gdbmacros/gdbmacros.cpp:570-577 | one step of the scan over the inner type moves forward and keeps the recorded parameters consistent with the text read so far |
| `Dumper.CutParameter` | share/qtcreator/gdbmacros/gdbmacros.cpp:572-576 | at an `@` the character becomes NUL and the next slot records the position after it |
| `Dumper.ClearUnused` | share/qtcreator/gdbmacros/gdbmacros.cpp:578-579 | the trailing loop clears only slots that are already null, so the table is unchanged |
| `Decimal.DigitChar` | share/qtcreator/gdbmacros/gdbmacros.cpp:639-644 | a digit value becomes a character `0`–`9` |
| `Decimal.NatText` | share/qtcreator/gdbmacros/gdbmacros.cpp:625-630 | the `%u` text of a number is non-empty and all digits |
| `Decimal.IntText` | share/qtcreator/gdbmacros/gdbmacros.cpp:639-644 | the `%d` text of a number is non-empty |
| `Decimal.ParseNatText` | share/qtcreator/gdbmacros/gdbmacros.cpp:625-630 | reading the decimal text of n gives n back |
| `Decimal.IntTextRoundTrip` | share/qtcreator/gdbmacros/gdbmacros.cpp:639-644 | the `%d` text starts with `-` exactly for negative numbers and reads back as the number |
| `Decimal.IntTextInjective` | share/qtcreator/gdbmacros/gdbmacros.cpp:639-644 | different numbers have different texts, so child names are distinct |
| `Decimal.ThreeDigits` | share/qtcreator/gdbmacros/gdbmacros.cpp:639-644 | the numbers 100 to 999 have three digits |
| `Decimal.HexText` | share/qtcreator/gdbmacros/gdbmacros.cpp:646-662 | the hexadecimal digits of an address are non-empty |
| `Decimal.ParseHexText` | share/qtcreator/gdbmacros/gdbmacros.cpp:646-662 | reading the hexadecimal text of an address gives it back |
| `TypeNames.StripPointerType` | share/qtcreator/gdbmacros/gdbmacros.cpp:272-282 | the result is a prefix of the type, at most nine characters shorter (`*`, `* const`, one blank) |
| `TypeNames.StripPointerSpellings` | share/qtcreator/gdbmacros/gdbmacros.cpp:265-282 | `T *` and `T * const` are pointer types and both strip back to `T` |
| `TypeNames.StartsWith` | share/qtcreator/gdbmacros/gdbmacros.cpp:324-330 | the loop answers true exactly when the second string is a prefix of the first |
| `TypeNames.SimpleTypeReference` | share/qtcreator/gdbmacros/gdbmacros.cpp:356-375 | the switch on the first character accepts exactly the eight basic names and the names starting `long `, `short `, `signed ` or `unsigned ` |
| `TypeNames.MovableTableReference` | share/qtcreator/gdbmacros/gdbmacros.cpp:389-456 | the switch on the second character accepts exactly the listed Qt classes |
| `TypeNames.HashOffsetTable` | share/qtcreator/gdbmacros/gdbmacros.cpp:1431-1468 | the key and value offsets of each `QHash` node layout, for 4- and 8-byte pointers |
| `TypeNames.KeyBeforeValue` | share/qtcreator/gdbmacros/gdbmacros.cpp:1431-1468 | in every layout the key lies after the `next` pointer and ends before the value starts |
| `TypeNames.ClassifyQList` | share/qtcreator/gdbmacros/gdbmacros.cpp:3302-3304 | the `QList` dumper is chosen exactly for the outer type `QList` |
| `TypeNames.ClassifyQVector` | share/qtcreator/gdbmacros/gdbmacros.cpp:3382-3386 | the `QVector` dumper is chosen exactly for `QVector` |
| `TypeNames.ClassifyQStringList` | share/qtcreator/gdbmacros/gdbmacros.cpp:3355-3356 | the `QStringList` dumper is chosen exactly for `QStringList` |
| `TypeNames.ClassifyStdVector` | share/qtcreator/gdbmacros/gdbmacros.cpp:3272-3274 | the `std::vector` dumper is chosen exactly for `vector` and `std::vector` |
| `TypeNames.ClassifyStdVectorBool` | share/qtcreator/gdbmacros/gdbmacros.cpp:3362-3366 | the `std::vector<bool>` dumper is chosen exactly for `std::vector::bool` |
| `TypeNames.IsPointerType` | share/qtcreator/gdbmacros/gdbmacros.cpp:267-270 | definition (no ensures): the name ends in `*` or `* const`; `StripPointerSpellings` states that both spellings strip back to the pointee |
| `TypeNames.IsSimpleType` | share/qtcreator/gdbmacros/gdbmacros.cpp:356-375 | definition (no ensures): the switch on the first character; `SimpleTypeReference` states which names it accepts |
| `TypeNames.IsMovableType` | share/qtcreator/gdbmacros/gdbmacros.cpp:389-456 | definition (no ensures): pointers, simple types and the listed Qt classes; `MovableTableReference` states the table is exactly the listed names |
| `TypeNames.IsOptimizedIntKey` | share/qtcreator/gdbmacros/gdbmacros.cpp:1421-1429 | definition (no ensures): `int` and `uint`, and `short`/`ushort` on little-endian machines; `OptimizedKeyLayout` states what it selects |
| `TypeNames.OptimizedKeyLayout` | share/qtcreator/gdbmacros/gdbmacros.cpp:1421-1468 | an optimized integer key sits right after the `next` pointer in an `O` layout (`NodeOL` exactly for values wider than 4 bytes); any other key lies after the hash field; `short` and `ushort` are optimized exactly on little-endian machines |
| `TypeNames.HashOffset` | share/qtcreator/gdbmacros/gdbmacros.cpp:1431-1468 | definition (no ensures): the offset of the key or the value field in the chosen node struct under natural alignment; `HashOffsetTable` and `KeyBeforeValue` state the offsets |
| `TypeNames.Classify` | share/qtcreator/gdbmacros/gdbmacros.cpp:3245-3394 | definition (no ensures): the switch on the second character of the outer type; the `Classify…` lemmas state which names select the modelled handlers |
| `Containers.EnumeratedShape` | share/qtcreator/gdbmacros/gdbmacros.cpp:1646-1697 | a container reply advertises the full size, lists min(n, 1000) children and ends the list with one `<incomplete>` entry exactly when n exceeds 1000 |
| `Containers.EnumeratedFlat` | share/qtcreator/gdbmacros/gdbmacros.cpp:1646-1648 | without children a container reply is the count, `valuedisabled` and `numchild` alone |
| `Containers.ElementNamed` | share/qtcreator/gdbmacros/gdbmacros.cpp:1668-1670 | the i-th child entry is a hash whose first item is `name="i"` |
| `Containers.QListShape` | share/qtcreator/gdbmacros/gdbmacros.cpp:1623-1701 | nothing is written for a negative size or a non-empty list with no reference; otherwise the reply holds the size, `internal`, the child type and the first min(n, 1000) elements in order, then `<incomplete>` exactly when the list is longer |
| `Containers.VectorShape` | share/qtcreator/gdbmacros/gdbmacros.cpp:2796-2838 | `QVector` and `std::vector` write nothing for a negative size, else list the first min(n, 1000) elements in order and `<incomplete>` when there are more |
| `Containers.QStringListShape` | share/qtcreator/gdbmacros/gdbmacros.cpp:2745-2777 | the first min(n, 1000) strings are listed in order and the value of the i-th entry decodes back to the UTF-16 bytes of the i-th string |
| `Containers.PutFields` | share/qtcreator/gdbmacros/gdbmacros.cpp:480-484 | a sequence of `putItem` calls writes the entries in order |
| `Containers.PutElement` | share/qtcreator/gdbmacros/gdbmacros.cpp:1669-1693 | one child: `{`, its name, what its dumper wrote, `}` |
| `Containers.PutChildNumChild` | share/qtcreator/gdbmacros/gdbmacros.cpp:899-913 | `childnumchild` is written as 0 or 1 for the results that call for it, and nothing otherwise |
| `Containers.PutElements` | share/qtcreator/gdbmacros/gdbmacros.cpp:1668-1694 | the children loop writes the first n element entries in order and keeps the result of the last inner dumper |
| `Containers.CloseList` | share/qtcreator/gdbmacros/gdbmacros.cpp:1695-1697 | the list of children is closed, with `<incomplete>` before the `]` exactly when it was cut short |
| `Containers.PutCountItems` | share/qtcreator/gdbmacros/gdbmacros.cpp:1646-1648 | the three summary items of a container |
| `Containers.DumpQList` | share/qtcreator/gdbmacros/gdbmacros.cpp:1623-1701 | `qDumpQList` writes exactly the `QList` reply and disarms the dumper exactly when the list was accepted |
| `Containers.ListHead` | share/qtcreator/gdbmacros/gdbmacros.cpp:1663-1664 | `internal` and `childtype` follow the summary items |
| `Containers.DumpQVector` | share/qtcreator/gdbmacros/gdbmacros.cpp:2796-2838 | `qDumpQVector` writes exactly the `QVector` reply and disarms the dumper exactly for a non-negative size |
| `Containers.PutStringEntry` | share/qtcreator/gdbmacros/gdbmacros.cpp:2766-2770 | one string child: name, base64 value of its UTF-16 bytes, `valueencoded="2"` |
| `Containers.PutStrings` | share/qtcreator/gdbmacros/gdbmacros.cpp:2765-2771 | the loop writes the first n string entries in order |
| `Containers.DumpQStringList` | share/qtcreator/gdbmacros/gdbmacros.cpp:2745-2777 | `qDumpQStringList` writes exactly the `QStringList` reply and disarms the dumper exactly for a non-negative size |
| `Containers.StringListHead` | share/qtcreator/gdbmacros/gdbmacros.cpp:2760-2761 | `childtype="QString"` and `childnumchild="0"` follow the summary items |
| `Containers.DumpStdVector` | share/qtcreator/gdbmacros/gdbmacros.cpp:3156-3209 | the size is the pointer difference divided by the element size, truncated toward zero; the reply is the vector reply for that size and the dumper is disarmed exactly when it is not negative |
| `Containers.DumpStdVectorBool` | share/qtcreator/gdbmacros/gdbmacros.cpp:3211-3215 | `std::vector<bool>` is dumped as a `std::vector` |
| `Containers.Enumerated` | share/qtcreator/gdbmacros/gdbmacros.cpp:1646-1697 | definition (no ensures): count, `valuedisabled`, `numchild`, then with children the handler items, the child list and the closing items; `EnumeratedShape` and `EnumeratedFlat` state its shape |
| `Containers.IsInternal` | share/qtcreator/gdbmacros/gdbmacros.cpp:1660-1661 | definition (no ensures): the element size read as `unsigned` is at most a pointer and the type is movable; `ListHead` states how it is reported |
| `Containers.QListReply` | share/qtcreator/gdbmacros/gdbmacros.cpp:1623-1701 | definition (no ensures): the `QList` reply; `QListShape` states when it is empty and what it lists |
| `Containers.QVectorReply` | share/qtcreator/gdbmacros/gdbmacros.cpp:2796-2838 | definition (no ensures): the `QVector` reply; `VectorShape` states its children |
| `Containers.QStringListReply` | share/qtcreator/gdbmacros/gdbmacros.cpp:2745-2777 | definition (no ensures): the `QStringList` reply; `QStringListShape` states that each value decodes back to its string |
| `Containers.StdVectorReply` | share/qtcreator/gdbmacros/gdbmacros.cpp:3156-3209 | definition (no ensures): the `std::vector` reply; `VectorShape` states its children |
| `Containers.Cap` | share/qtcreator/gdbmacros/gdbmacros.cpp:1665-1666 | definition (no ensures): at most 1000 children are listed |
| `Containers.Ellipsis` | share/qtcreator/gdbmacros/gdbmacros.cpp:1695-1696 | definition (no ensures): the `<incomplete>` entry exactly when the list was cut short |
| `Containers.LastResult` | share/qtcreator/gdbmacros/gdbmacros.cpp:1668-1694 | definition (no ensures): the result of the last inner dumper that reported one; `PutElements` keeps it |
| `Containers.ChildNumChild` | share/qtcreator/gdbmacros/gdbmacros.cpp:899-913 | definition (no ensures): `childnumchild` 0 or 1 for the results that call for it; `PutChildNumChild` writes it |
| `Containers.ListAccepted` | share/qtcreator/gdbmacros/gdbmacros.cpp:1632-1643 | definition (no ensures): a non-negative size, and a positive reference count for a non-empty list; `QListShape` states its role |
| `Containers.TruncDiv` | share/qtcreator/gdbmacros/gdbmacros.cpp:3174 | definition (no ensures): C++ division truncating toward zero; `DumpStdVector` uses it for the size |
| `Dispatch.SkipFieldShape` | share/qtcreator/gdbmacros/gdbmacros.cpp:3612-3616 | skipping a field stops right after the NUL that ends its C string |
| `Dispatch.ReadEncodedFields` | share/qtcreator/gdbmacros/gdbmacros.cpp:3612-3616 | fields written as NUL-terminated strings are read back as themselves, whatever follows them |
| `Dispatch.RequestRoundTrip` | share/qtcreator/gdbmacros/gdbmacros.cpp:3612-3616 | a request of five NUL-free fields is well formed and its five fields read back unchanged |
| `Dispatch.ReadFieldStarts` | share/qtcreator/gdbmacros/gdbmacros.cpp:3612-3616 | the walk over the request buffer finds the start of each of the five fields |
| `Dispatch.ReplyShape` | share/qtcreator/gdbmacros/gdbmacros.cpp:553-558 | the debugger reads `t`, or `+` when the entries reached the fill limit, then as much of the comma-separated entries as fits, then a NUL |
| `Dispatch.Protocol23NotEmpty` | share/qtcreator/gdbmacros/gdbmacros.cpp:3217-3230 | a reply has entries: `iname` first when there is an outer type, else what `qDumpUnknown` writes |
| `Dispatch.ReplyFinished` | share/qtcreator/gdbmacros/gdbmacros.cpp:3217-3404 | a protocol 2 or 3 reply is never left marked `f`: it starts with `+` exactly when it reached the fill limit and with `t` otherwise, and ends with a NUL |
| `Dispatch.Fallback` | share/qtcreator/gdbmacros/gdbmacros.cpp:3396-3397 | an outer type with no handler gets the `qDumpUnknown` entries after `iname` and `addr`; a handler that disarms has the last word |
| `Dispatch.PutNode` | share/qtcreator/gdbmacros/gdbmacros.cpp:480-484 | any entry is written through the dumper's helpers as its text |
| `Dispatch.PutNodes` | share/qtcreator/gdbmacros/gdbmacros.cpp:691-698 | a list of entries is written in order, comma-separated |
| `Dispatch.DumpUnknown` | share/qtcreator/gdbmacros/gdbmacros.cpp:858-868 | writes `value="<internal error>"`, the outer type and `numchild="0"`, and disarms |
| `Dispatch.RunHandler` | share/qtcreator/gdbmacros/gdbmacros.cpp:3245-3394 | the handler chosen by the outer type writes its reply and disarms when it accepts the request |
| `Dispatch.PutHead` | share/qtcreator/gdbmacros/gdbmacros.cpp:3228 | the `iname` entry |
| `Dispatch.HandleProtocolVersion2and3` | share/qtcreator/gdbmacros/gdbmacros.cpp:3217-3404 | the inner type is cut to its template parameters; the reply is `iname`, `addr` when there is an address, the handler's reply, and `qDumpUnknown`'s entries when no handler disarmed; the dumper ends disarmed |
| `Dispatch.DumpObjectData440` | share/qtcreator/gdbmacros/gdbmacros.cpp:3599-3631 | for protocols 2 and 3 the five request fields are read from the input buffer (the fifth overriding `iname`) and the output buffer starts with the finished reply; other versions leave it alone |
| `Dispatch.InnerTypeField` | share/qtcreator/gdbmacros/gdbmacros.cpp:3615 | the fourth field, the inner type, is a NUL-terminated C string inside the buffer |
| `Dispatch.FieldsSkip` | share/qtcreator/gdbmacros/gdbmacros.cpp:3612-3616 | every recorded field start is followed by a NUL inside the buffer |
| `Dispatch.SkipField` | share/qtcreator/gdbmacros/gdbmacros.cpp:3612-3616 | definition (no ensures): the position after the next NUL, none when the text ends first; `SkipFieldShape` and `ReadEncodedFields` state what it finds |
| `Dispatch.UnknownNodes` | share/qtcreator/gdbmacros/gdbmacros.cpp:858-868 | definition (no ensures): `value="<internal error>"`, the outer type, `numchild="0"`; `DumpUnknown` writes exactly these |
| `Dispatch.HandlerReply` | share/qtcreator/gdbmacros/gdbmacros.cpp:3245-3394 | definition (no ensures): the entries of the chosen handler and whether it disarms; `RunHandler` writes exactly these and `Fallback` states the no-handler case |
| `Dispatch.FieldStarts` | share/qtcreator/gdbmacros/gdbmacros.cpp:3612-3616 | definition (no ensures): the start of each of n NUL-terminated strings; `ReadFieldStarts` and `ReadFields` state what it finds |
| `Dispatch.ReadFields` | share/qtcreator/gdbmacros/gdbmacros.cpp:3612-3616 | NUL-free fields written back to back are all found, one start per field, and the C string at each start is that field |
| `Dispatch.Prepared` | share/qtcreator/gdbmacros/gdbmacros.cpp:3227 | definition (no ensures): the inner type cut to its first template parameter once there is an outer type |
| `Dispatch.Protocol23Nodes` | share/qtcreator/gdbmacros/gdbmacros.cpp:3217-3404 | definition (no ensures): the entries of a protocol 2 or 3 reply; `Protocol23NotEmpty`, `Fallback` and `HandleProtocolVersion2and3` state them |
| `TokenStream.Token.IsNot` | src/libs/python/parser/tokenstream.h:32-33 | `isNot(k)` holds exactly when `is(k)` does not |
| `TokenStream.GrownIsCapacity` | src/libs/python/parser/tokenstream.h:114-122 | growing an empty buffer gives 4096 slots and any other buffer four times as many, so every growth makes room for at least one more token |
| `TokenStream.TokenStreamBase.constructor` | src/libs/python/parser/tokenstream.h:41-49 | a new stream has no tokens, no buffer and its cursor at 0 |
| `TokenStream.TokenStreamBase.Reset` | src/libs/python/parser/tokenstream.h:59-63 | the count and the cursor go back to 0; the buffer is kept |
| `TokenStream.TokenStreamBase.TokenIndex` | src/libs/python/parser/tokenstream.h:82-87 | the position just before the cursor, or 0 while the cursor is at 0 |
| `TokenStream.TokenStreamBase.Rewind` | src/libs/python/parser/tokenstream.h:89-92 | moves the cursor and changes nothing else |
| `TokenStream.TokenStreamBase.SetToken` | src/libs/python/parser/tokenstream.h:97-105 | a write through the reference `token(i)` returns changes slot i and no other |
| `TokenStream.TokenStreamBase.NextToken` | src/libs/python/parser/tokenstream.h:107-110 | returns the kind of the token at the cursor and moves the cursor past it, so `tokenIndex()` is then that token's position |
| `TokenStream.TokenStreamBase.Grow` | src/libs/python/parser/tokenstream.h:116-122 | the `realloc`: a larger buffer that starts with all the old slots |
| `TokenStream.TokenStreamBase.Next` | src/libs/python/parser/tokenstream.h:112-126 | returns the slot after the last token and counts it; the buffer grows only when it was full and the stored tokens survive; the cursor does not move |
| `TokenStream.TokenStreamBase.Advance` | src/libs/python/parser/tokenstream.h:128-145 | returns the slot at the cursor and moves past it; at the end of the stored tokens the slot is a new token, counted as `next()` would; the stored tokens survive and a cursor within the tokens stays within them |
| `TokenStream.TokenStreamBase.TokenAt` | src/libs/python/parser/tokenstream.h:95-105 | definition (no ensures): the slot at index i; `SetToken` states that a write through it changes that slot only |
| `TokenStream.Grown` | src/libs/python/parser/tokenstream.h:114-122 | definition (no ensures): 4096 slots for an empty buffer, else four times as many; `GrownIsCapacity` states the growth |
| `Memcheck.CommonRoundTrip` | src/plugins/valgrind/memchecksettings.cpp:73-102 | loading what `toMap` saved restores the shared options, whatever they were before |
| `Memcheck.CommonDefaults` | src/plugins/valgrind/memchecksettings.cpp:58-71 | the defaults are 25 callers, origins tracked, external issues filtered and all 15 error kinds visible |
| `Memcheck.CommonAbsentKeys` | src/plugins/valgrind/memchecksettings.cpp:73-87 | a map without the shared keys leaves the shared options as they were |
| `Memcheck.RemoveAll` | src/plugins/valgrind/memchecksettings.cpp:166 | `removeAll(s)` keeps exactly the entries other than s |
| `Memcheck.RemoveAllWithout` | src/plugins/valgrind/memchecksettings.cpp:165-166 | removing the files one at a time is removing them all at once, with the remaining order kept |
| `Memcheck.WithoutMembers` | src/plugins/valgrind/memchecksettings.cpp:163-167 | after removal a file is listed exactly when it was listed and not removed |
| `Memcheck.WithoutKeepsDistinct` | src/plugins/valgrind/memchecksettings.cpp:163-167 | removal introduces no duplicates |
| `Memcheck.AppendNewSpec` | src/plugins/valgrind/memchecksettings.cpp:156-161 | adding keeps the existing entries in place, adds no duplicate, and afterwards a file is listed exactly when it was listed or added |
| `Memcheck.GlobalRoundTrip` | src/plugins/valgrind/memchecksettings.cpp:198-214 | the global settings' `fromMap` restores what `toMap` saved |
| `Memcheck.GlobalDefaults` | src/plugins/valgrind/memchecksettings.cpp:189-196 | loading the global defaults gives the default options, no files, no directory and no history |
| `Memcheck.EffectiveMembers` | src/plugins/valgrind/memchecksettings.cpp:270-277 | a project's file is in effect exactly when it is global and not disabled, or the project's own |
| `Memcheck.AddOneEffect` | src/plugins/valgrind/memchecksettings.cpp:251-257 | adding one file puts it in effect and leaves every other file as it was |
| `Memcheck.RemoveOneEffect` | src/plugins/valgrind/memchecksettings.cpp:263-267 | removing one file takes it out of effect and leaves every other file as it was |
| `Memcheck.AddAllEffect` | src/plugins/valgrind/memchecksettings.cpp:248-258 | after the project's `addSuppressionFiles` a file is in effect exactly when it was before or was just added |
| `Memcheck.RemoveEveryEffect` | src/plugins/valgrind/memchecksettings.cpp:260-268 | after the project's `removeSuppressionFiles` a file is in effect exactly when it was before and was not just removed |
| `Memcheck.RemoveAllKeepsDistinct` | src/plugins/valgrind/memchecksettings.cpp:254 | `removeAll` introduces no duplicates |
| `Memcheck.OverlayStaysSeparate` | src/plugins/valgrind/memchecksettings.cpp:248-268 | adding and removing keep the project's own files distinct and out of the global list |
| `Memcheck.EffectiveDistinct` | src/plugins/valgrind/memchecksettings.cpp:270-277 | with a duplicate-free global list, the project's effective list has no duplicates |
| `Memcheck.LoadCommon` | src/plugins/valgrind/memchecksettings.cpp:73-87 | definition (no ensures): each shared option is replaced only when its key is present; `CommonRoundTrip` and `CommonAbsentKeys` state the round trip and the absent keys |
| `Memcheck.SaveCommon` | src/plugins/valgrind/memchecksettings.cpp:89-102 | definition (no ensures): the map of the four shared options; `CommonRoundTrip` states that loading it gives the options back |
| `Memcheck.Effective` | src/plugins/valgrind/memchecksettings.cpp:270-277 | definition (no ensures): the enabled global files, then the project's own; `EffectiveMembers` and `EffectiveDistinct` state its members and that it has no duplicates |
| `Memcheck.AddOne` | src/plugins/valgrind/memchecksettings.cpp:251-257 | definition (no ensures): one round of `addSuppressionFiles`; `AddOneEffect` states its effect |
| `Memcheck.RemoveOne` | src/plugins/valgrind/memchecksettings.cpp:263-267 | definition (no ensures): one round of `removeSuppressionFiles`; `RemoveOneEffect` states its effect |
| `Memcheck.ProjectRoundTrip` | src/plugins/valgrind/memchecksettings.cpp:232-246 | the project settings' `fromMap` restores what `toMap` saved, options and both lists |
| `Memcheck.ProjectDefaults` | src/plugins/valgrind/memchecksettings.cpp:224-230 | a project loaded from the defaults has the default options and no added or disabled files |
| `Memcheck.AbstractMemcheckSettings.SetNumCallers` | src/plugins/valgrind/memchecksettings.cpp:104-110 | sets the value; the change signal fires exactly when it differed |
| `Memcheck.AbstractMemcheckSettings.SetTrackOrigins` | src/plugins/valgrind/memchecksettings.cpp:112-118 | the same for `trackOrigins` |
| `Memcheck.AbstractMemcheckSettings.SetFilterExternalIssues` | src/plugins/valgrind/memchecksettings.cpp:120-126 | the same for `filterExternalIssues` |
| `Memcheck.AbstractMemcheckSettings.SetVisibleErrorKinds` | src/plugins/valgrind/memchecksettings.cpp:128-134 | the same for the list of visible error kinds |
| `Memcheck.AbstractMemcheckSettings.FromMap` | src/plugins/valgrind/memchecksettings.cpp:73-87 | the options whose keys are present are replaced, the error kinds converted one by one; it always succeeds |
| `Memcheck.AbstractMemcheckSettings.ToMap` | src/plugins/valgrind/memchecksettings.cpp:89-102 | a map of the four options, the error kinds as a list of integers |
| `Memcheck.MemcheckGlobalSettings.AddSuppressionFiles` | src/plugins/valgrind/memchecksettings.cpp:156-161 | each given file not yet listed is appended, in order |
| `Memcheck.MemcheckGlobalSettings.RemoveSuppressionFiles` | src/plugins/valgrind/memchecksettings.cpp:163-167 | every occurrence of every given file goes; the rest keep their order |
| `Memcheck.MemcheckGlobalSettings.SetLastSuppressionDialogDirectory` | src/plugins/valgrind/memchecksettings.cpp:174-177 | only the remembered directory changes |
| `Memcheck.MemcheckGlobalSettings.SetLastSuppressionDialogHistory` | src/plugins/valgrind/memchecksettings.cpp:184-187 | only the remembered history changes |
| `Memcheck.MemcheckGlobalSettings.FromMap` | src/plugins/valgrind/memchecksettings.cpp:198-205 | the shared options as they are loaded; the file list, directory and history replaced, by empty values when their keys are missing |
| `Memcheck.MemcheckGlobalSettings.ToMap` | src/plugins/valgrind/memchecksettings.cpp:207-214 | the shared map plus the file list, directory and history |
| `Memcheck.MemcheckProjectSettings.AddSuppressionFiles` | src/plugins/valgrind/memchecksettings.cpp:248-258 | per file: skipped if already added; otherwise re-enabled if it was disabled, and added unless it is global |
| `Memcheck.MemcheckProjectSettings.RemoveSuppressionFiles` | src/plugins/valgrind/memchecksettings.cpp:260-268 | per file: dropped from the added files, and disabled if it is global |
| `Memcheck.MemcheckProjectSettings.SuppressionFiles` | src/plugins/valgrind/memchecksettings.cpp:270-277 | the global files not disabled, in order, then the project's own; a file is listed exactly when it is global and not disabled or the project's own |
| `Memcheck.MemcheckProjectSettings.FromMap` | src/plugins/valgrind/memchecksettings.cpp:232-238 | the shared options and both lists, each replaced only when its key is present |
| `Memcheck.MemcheckProjectSettings.ToMap` | src/plugins/valgrind/memchecksettings.cpp:240-246 | the shared map plus both lists |
| `Memcheck.IntsOf` | src/plugins/valgrind/memchecksettings.cpp:80-84 | definition (no ensures): `toInt` of each listed value, in order |
| `Memcheck.IntValues` | src/plugins/valgrind/memchecksettings.cpp:95-98 | definition (no ensures): each error kind as a value, in order; `CommonRoundTrip` states that `IntsOf` reads them back |
| `Memcheck.AbstractMemcheckSettings.LoadErrorKinds` | src/plugins/valgrind/memchecksettings.cpp:80-84 | the error kinds are cleared and refilled with the integers of the listed values; the other options are unchanged |
| `Memcheck.DefaultCommonMap` | src/plugins/valgrind/memchecksettings.cpp:57-71 | definition (no ensures): 25 callers, origins tracked, external issues filtered, every error kind visible; `CommonDefaults` states the loaded result |
| `Memcheck.Without` | src/plugins/valgrind/memchecksettings.cpp:163-167 | definition (no ensures): the list with every removed file dropped; `WithoutMembers` and `RemoveAllWithout` state it |
| `Memcheck.AppendNew` | src/plugins/valgrind/memchecksettings.cpp:156-161 | definition (no ensures): the global `addSuppressionFiles`, appending files not yet listed |
| `Memcheck.SaveGlobal` | src/plugins/valgrind/memchecksettings.cpp:207-214 | definition (no ensures): the global `toMap`; `GlobalRoundTrip` states that loading it gives the settings back |
| `Memcheck.DefaultGlobalMap` | src/plugins/valgrind/memchecksettings.cpp:189-196 | definition (no ensures): the shared defaults plus empty suppression files, directory and history; `GlobalDefaults` states the loaded result |
| `Memcheck.AddAll` | src/plugins/valgrind/memchecksettings.cpp:248-258 | definition (no ensures): the project `addSuppressionFiles` over a list; `AddAllEffect` states its effect |
| `Memcheck.RemoveEvery` | src/plugins/valgrind/memchecksettings.cpp:260-268 | definition (no ensures): the project `removeSuppressionFiles` over a list; `RemoveEveryEffect` states its effect |
| `Memcheck.LoadOverlay` | src/plugins/valgrind/memchecksettings.cpp:232-238 | definition (no ensures): the project lists replaced only when their keys are present; `ProjectRoundTrip` states the round trip |
| `Memcheck.SaveProject` | src/plugins/valgrind/memchecksettings.cpp:240-246 | definition (no ensures): the project `toMap`; `ProjectRoundTrip` states that loading it gives the settings back |
| `Memcheck.DefaultProjectMap` | src/plugins/valgrind/memchecksettings.cpp:224-230 | definition (no ensures): the shared defaults plus two empty lists; `ProjectDefaults` states the loaded result |
| `QtText.TrimStart` | src/plugins/remotelinux/maemodeviceconfigwizard.cpp:126 | `trimmed()` drops leading white space: the longest suffix not starting with a space, all that was dropped being space |
| `QtText.TrimEnd` | src/plugins/remotelinux/maemodeviceconfigwizard.cpp:126 | the same at the end |
| `QtText.TrimmedSlice` | src/plugins/remotelinux/maemodeviceconfigwizard.cpp:126 | a trimmed text is a slice of the text with only white space around it and none at either end |
| `QtText.TrimmedEmpty` | src/plugins/remotelinux/maemodeviceconfigwizard.cpp:121-124 | a trimmed text is empty exactly when the text is all white space, so a page accepts a name exactly when it is not blank |
| `QtText.TrimmedIdempotent` | src/plugins/remotelinux/maemodeviceconfigwizard.cpp:219 | trimming twice changes nothing more |
| `QtText.IsSpace` | src/plugins/remotelinux/maemodeviceconfigwizard.cpp:126 | definition (no ensures): `QChar::isSpace`, the control characters TAB to CR and the Unicode separators; `TrimStart` and `TrimEnd` state trimming in its terms |
| `QtText.Trimmed` | src/plugins/remotelinux/maemodeviceconfigwizard.cpp:126 | definition (no ensures): white space removed at both ends; `TrimmedSlice`, `TrimmedEmpty` and `TrimmedIdempotent` state what it keeps |
| `Wizard.PrivateKeyFilePath` | src/plugins/remotelinux/maemodeviceconfigwizard.cpp:364-366 | the private key file is `qtc_id_rsa` inside the chosen directory |
| `Wizard.PublicKeyFilePath` | src/plugins/remotelinux/maemodeviceconfigwizard.cpp:368-370 | the public key path is the private one plus `.pub` |
| `Wizard.KeyFilePaths` | src/plugins/remotelinux/maemodeviceconfigwizard.cpp:364-370 | the two key paths differ, the public one extends the private one, and different directories give different key files |
| `Wizard.CollectWrites` | src/plugins/remotelinux/maemodeviceconfigwizard.cpp:666-722 | each page writes only its own fields of the wizard data; the login page writes the password or the private key, never both |
| `Wizard.CompletePageCollects` | src/plugins/remotelinux/maemodeviceconfigwizard.cpp:196-201 | leaving a complete page stores non-blank names and key paths the choosers accepted or that were just created |
| `Wizard.NextPageAdvances` | src/plugins/remotelinux/maemodeviceconfigwizard.cpp:666-722 | every page but the final one leads to a page nearer the end; the final page leads to -1 |
| `Wizard.WalkReachesFinal` | src/plugins/remotelinux/maemodeviceconfigwizard.cpp:666-722 | whatever the user chooses, the wizard never returns to a page and reaches the final page within five presses of Next from the start |
| `Wizard.ConfigFor` | src/plugins/remotelinux/maemodeviceconfigwizard.cpp:646-663 | generic Linux gets a password or key configuration by the authentication chosen; other systems get a hardware configuration on a physical device and an emulator configuration otherwise; the chosen name is used |
| `Wizard.StepKeepsAgreement` | src/plugins/remotelinux/maemodeviceconfigwizard.cpp:666-722 | one step keeps two runs' data equal on everything the pages ahead will use |
| `Wizard.ConfigUsesCollectedData` | src/plugins/remotelinux/maemodeviceconfigwizard.cpp:635-722 | the configuration added depends only on data collected on the way: two runs from different initial data with the same choices add the same configuration |
| `Wizard.CandidateInjective` | src/plugins/remotelinux/maemodeviceconfigwizard.cpp:639-642 | different suffixes give different names |
| `Wizard.CandidatesBelowSize` | src/plugins/remotelinux/maemodeviceconfigwizard.cpp:640-643 | the names tried before suffix k are k−2 different names, none of them the k-th |
| `Wizard.FirstFreeUnique` | src/plugins/remotelinux/maemodeviceconfigwizard.cpp:637-644 | the name the loop settles on is unique and not in use |
| `Wizard.DeviceConfigurations.Add` | src/plugins/remotelinux/maemodeviceconfigwizard.cpp:646-663 | adding appends the configuration |
| `Wizard.DeviceConfigWizard.constructor` | src/plugins/remotelinux/maemodeviceconfigwizard.cpp:617-631 | the wizard holds the configurations and the initial data |
| `Wizard.DeviceConfigWizard.NextId` | src/plugins/remotelinux/maemodeviceconfigwizard.cpp:666-722 | returns the next page and stores the current page's fields into the wizard data |
| `Wizard.DeviceConfigWizard.PickName` | src/plugins/remotelinux/maemodeviceconfigwizard.cpp:637-644 | the configuration name if free, else the first free `name (k)` from k = 2; the name is not in use |
| `Wizard.DeviceConfigWizard.CreateDeviceConfig` | src/plugins/remotelinux/maemodeviceconfigwizard.cpp:635-664 | appends exactly one configuration, made from the wizard data under the first free name |
| `Wizard.StartComplete` | src/plugins/remotelinux/maemodeviceconfigwizard.cpp:121-124 | definition (no ensures): a name and a host name remain after trimming; `CompletePageCollects` states what leaving the page then stores |
| `Wizard.LoginDataComplete` | src/plugins/remotelinux/maemodeviceconfigwizard.cpp:196-201 | definition (no ensures): a non-blank user name, and a password login or a valid key file |
| `Wizard.PreviousKeySetupCheckComplete` | src/plugins/remotelinux/maemodeviceconfigwizard.cpp:257-261 | definition (no ensures): no earlier key setup, or a valid key file |
| `Wizard.ReuseKeysCheckComplete` | src/plugins/remotelinux/maemodeviceconfigwizard.cpp:313-317 | definition (no ensures): the keys are not reused, or both key files are valid |
| `Wizard.KeyCreationComplete` | src/plugins/remotelinux/maemodeviceconfigwizard.cpp:381 | definition (no ensures): the keys have been created |
| `Wizard.KeyDeploymentComplete` | src/plugins/remotelinux/maemodeviceconfigwizard.cpp:485 | definition (no ensures): the key has been deployed |
| `Wizard.NextPage` | src/plugins/remotelinux/maemodeviceconfigwizard.cpp:666-722 | definition (no ensures): the page chosen by `nextId`; `NextPageAdvances` and `WalkReachesFinal` state that it always moves forward and ends |
| `Wizard.Collect` | src/plugins/remotelinux/maemodeviceconfigwizard.cpp:666-722 | definition (no ensures): the fields stored on leaving a page; `CollectWrites` and `CompletePageCollects` state which fields each page writes |
| `Wizard.ConfigName` | src/plugins/remotelinux/maemodeviceconfigwizard.cpp:126 | definition (no ensures): the trimmed name field |
| `Wizard.HostName` | src/plugins/remotelinux/maemodeviceconfigwizard.cpp:128-133 | definition (no ensures): the emulator's default host, else the trimmed host field |
| `Wizard.HostAddress` | src/plugins/remotelinux/maemodeviceconfigwizard.cpp:486-489 | definition (no ensures): the trimmed device address |
| `Wizard.PageComplete` | src/plugins/remotelinux/maemodeviceconfigwizard.cpp:121-485 | definition (no ensures): the `isComplete` of the page with that id; `CompletePageCollects` states what leaving a complete page stores |
| `Wizard.Candidate` | src/plugins/remotelinux/maemodeviceconfigwizard.cpp:639-642 | definition (no ensures): `name (k)`; `CandidateInjective` states different suffixes give different names |
| `Wizard.FirstFree` | src/plugins/remotelinux/maemodeviceconfigwizard.cpp:637-644 | definition (no ensures): the name the loop settles on; `FirstFreeUnique` states it is unique and free |
| `Indenter.ToInt` | src/plugins/pythoneditor/pythonindenter.cpp:94 | an unsigned column passed as `int` keeps its value below 2^31 |
| `Indenter.Unsigned` | src/plugins/pythoneditor/pythonindenter.cpp:89 | unsigned arithmetic wraps into [0, 2^32), and an in-range `int` survives the round trip |
| `Indenter.LeadingSpaces` | src/plugins/pythoneditor/pythonindenter.cpp:41-53 | n leading characters are blanks and the next one is not |
| `Indenter.LeadingSpacesUnique` | src/plugins/pythoneditor/pythonindenter.cpp:41-53 | only one count has that property |
| `Indenter.WSpacesCount` | src/plugins/pythoneditor/pythonindenter.cpp:41-53 | `wspaces_count` counts the blanks before the first other character |
| `Indenter.Step` | src/plugins/pythoneditor/pythonindenter.cpp:68-70 | the step is the tab setting, capped at 4 |
| `Indenter.BlankWrapsAsWritten` | src/plugins/pythoneditor/pythonindenter.cpp:124-126 | as written, an indentation of 2 with a step of 4 becomes 4294967294, column −2 |
| `Indenter.BlankTabSize` | src/plugins/pythoneditor/pythonindenter.cpp:124-126 | corrected: a blank line lowers the indentation by one step but never below 0, and agrees with the source wherever it does not wrap |
| `Indenter.IndentRule` | src/plugins/pythoneditor/pythonindenter.cpp:55-131 | the remembered indentation stays a 32-bit unsigned value |
| `Indenter.IsElectricCharacter` | src/plugins/pythoneditor/pythonindenter.cpp:34-39 | definition (no ensures): only `:` is electric; `EmptyLineAsWritten` states that it is tested on the last character of every non-empty line |
| `Indenter.KeywordLine` | src/plugins/pythoneditor/pythonindenter.cpp:76-79 | definition (no ensures): after leading white space the line starts with the keyword and ends, at least one character later, with `:`; the approximation is listed under "Left out" |
| `Indenter.Rule` | src/plugins/pythoneditor/pythonindenter.cpp:86-130 | the remembered indentation stays below 2^32; `OpenerRule`, `DedentRule` and `BlankRule` state its branches |
| `Indenter.OpenerRule` | src/plugins/pythoneditor/pythonindenter.cpp:117-123 | a line ending in `:` that does not close the block at its own indentation remembers its lead plus the step, wrapped to 32 bits, and gives the new line that column when it is valid |
| `Indenter.DedentRule` | src/plugins/pythoneditor/pythonindenter.cpp:86-119 | a dedenting line at the remembered indentation keeps its column for the new line and moves itself back one step |
| `Indenter.BlankRule` | src/plugins/pythoneditor/pythonindenter.cpp:124-126 | a blank line lowers the remembered indentation by one step, never below 0, and the new line takes that column |
| `Indenter.OpenerIndents` | src/plugins/pythoneditor/pythonindenter.cpp:120-123 | after a line ending in `:` (other than a dedenting line at the remembered indentation) the remembered indentation is the line's leading spaces plus one step, wrapped as an `unsigned`, and the line itself is not re-indented |
| `Indenter.OpenerColumn` | src/plugins/pythoneditor/pythonindenter.cpp:120-123 | when that sum is a valid column, the new line gets it and it is remembered |
| `Indenter.DedentLineMovesBack` | src/plugins/pythoneditor/pythonindenter.cpp:86-119 | an `else`, `elif` or `except` line at the block's indentation moves back one step and the new line stays at its old column |
| `Indenter.BlankLineDedents` | src/plugins/pythoneditor/pythonindenter.cpp:124-126 | after a blank line the indentation goes down one step, never below 0 |
| `Indenter.OtherLineCopied` | src/plugins/pythoneditor/pythonindenter.cpp:127-130 | after any other line the new line starts under its first non-blank |
| `Indenter.OpenerThenBlank` | src/plugins/pythoneditor/pythonindenter.cpp:120-126 | a blank line after a block opener returns to the opener's column |
| `Indenter.EmptyLineAsWritten` | src/plugins/pythoneditor/pythonindenter.cpp:75 | as written, the index `size() - 1` lies inside the previous line exactly when the line is not empty, so the empty line (blank, and not ending in a colon) is read outside it; on every other line the character read is the one the colon test uses |
| `Indenter.EmptyLineIsBlank` | src/plugins/pythoneditor/pythonindenter.cpp:124-126 | corrected: an empty previous line is handled as a blank one |
| `Indenter.PythonIndenter.constructor` | src/plugins/pythoneditor/pythonindenter.cpp:25-28 | the remembered indentation starts at 0 |
| `Indenter.PythonIndenter.IndentBlock` | src/plugins/pythoneditor/pythonindenter.cpp:55-131 | the columns given to the previous and the new line, and the new remembered indentation, are those of the indentation rule |
| `Indenter.EndsElectric` | src/plugins/pythoneditor/pythonindenter.cpp:75-86 | definition (no ensures): the line is not empty and its last character is electric; `EmptyLineAsWritten` relates it to the read as written |
| `Indenter.DedentLine` | src/plugins/pythoneditor/pythonindenter.cpp:77-112 | definition (no ensures): an `else`, `elif` or `except` line; `DedentLineMovesBack` states its effect |
| `Indenter.BlankTabSizeAsWritten` | src/plugins/pythoneditor/pythonindenter.cpp:124-126 | definition (no ensures): the blank-line rule on `unsigned` as written; `BlankWrapsAsWritten` states the wrap |

## Left out

- Reading the debugged program's memory (`deref`, `qCheckAccess`, the `QListData` and `QVectorData` layouts) is not modelled. What a container dumper reads is the `Dispatch.Inferior` input, and what an element's own dumper writes is the `Containers.Element` input.
- The MSVC structured-exception block around dispatch (`gdbmacros.cpp:3223-3225`, `3398-3402`) is not modelled. A fault in the debugged program is outside a model without its memory.
- The protocol 1 reply (`gdbmacros.cpp:3474-3597`), a catalogue of `std::map` node offsets computed by the compiler, is not modelled.
- `Dispatch.DumpObjectData440`: requires a protocol version other than 1 because of the protocol 1 omission. The `qDebug` message for unsupported versions is I/O.
- The dumpers for every outer type other than `QList`, `QVector`, `QStringList`, `std::vector` and `std::vector<bool>` are not followed. What they write and whether they disarm are the inputs `Inferior.other` and `Inferior.otherDisarms`.
- The `QT_NO_QDATASTREAM` `editvalue` block (`gdbmacros.cpp:3232-3243`) needs `QVariant` streaming and is not modelled. The build assumed has data streams, so the block is compiled out.
- `float` and `double` `put` overloads are not modelled (floating point).
- The `%p` text of an address is implementation-defined. It is modelled as `0x` and lowercase hexadecimal digits.
- `stripNamespace` is the identity, because the build has no `QT_NAMESPACE`.
- `Dispatch.Readable`: the preconditions that the element size of a `std::vector` is not zero and that the inferior supplies as many elements as a dumper lists are memory facts. The source relies on them and does not check them.
- `Containers.DumpStdVector`: the size is not narrowed to `int`, and the pointer difference is an unbounded integer.
- `TokenStream.TokenStreamBase.Grow`: `realloc` failure and the `qint64` overflow of the capacity are not modelled. The new buffer's slots past the old tokens hold a default token instead of uninitialised memory.
- `free()`, the destructor, `locationTable()`, `startPosition` and `endPosition` of the token stream need `LocationTable`. `locationtable.h` is not part of this model. `size()` and `index()` are the fields `count` and `index`.
- `TokenStream.TokenStreamBase.NextToken` and `Advance` require the cursor to lie inside the buffer, where the source reads whatever memory the cursor points at.
- The Memcheck settings' signals are modelled as the `changed` result of each setter.
- `setIfPresent` and the `QVariant` conversions are modelled for the value kinds the settings store.
- `id()`, `displayName()` and `createConfigWidget` return constant strings and a widget, and are not modelled.
- The `globalMemcheckSettings()` singleton is not modelled. The project settings take the global file list as a parameter.
- `memchecksettings.h` is not part of this model. The settings classes' constructors take the initial options as a parameter.
- The wizard's widgets, key generation, key file saving, key deployment, message boxes and `initializePage` defaults are not modelled. A page's content is the `Wizard.Pages` input, and key creation and deployment are the flags `keysCreated` and `deployed`.
- `LinuxDeviceConfigurations` is not part of this model. Adding a configuration is appending it, and `defaultHost` for the emulator is the `emulatorHost` input.
- `Wizard.DeviceConfigWizard.PickName`: `QString::arg` would also replace a `%1` marker inside the configuration name. The model appends ` (k)` literally, and the `int` suffix does not wrap.
- `Wizard.ConfigUsesCollectedData`: assumes the start page is consistent, meaning generic Linux only as a physical device, as `handleOsTypeChanged` (`maemodeviceconfigwizard.cpp:157-168`) enforces.
- `TextEditor::TabSettings::indentLine` is not modelled. `Indenter.PythonIndenter.IndentBlock` returns the columns it would be given.
- `pblock.text() = s` assigns to a temporary and has no effect, so it is not modelled.
- The `qDebug` calls and the unused document, editor and typed-character parameters are not modelled.
- `Indenter.KeywordLine`: approximates the minimal-match regular expressions for `else`, `elif` and `except` as "after leading white space the line starts with the keyword and ends with `:`".
- `Indenter.IndentRule`: lines are shorter than 2^31 characters (`QString` sizes are `int`).
- `Indenter.PythonIndenter.IndentBlock`: uses the corrected blank-line rule and reads an empty previous line as blank (Findings 3 and 4).
- `Dumper.QDumper.PutItemNumber`: writes numbers through `put(char)`, the corrected behaviour of Finding 1.
- `Dumper.QDumper.PutItemCount`: writes the count through `put(char)`, the corrected behaviour of Finding 1; the source's `putItemCount` uses `put(int)`, which writes even once `full` is set.
- `Dumper.QDumper.SetupTemplateParameters`: stops recording when the table is full, the corrected behaviour of Finding 2.
- `Memcheck.MemcheckErrorKindCount`: is 15, the Memcheck error kinds from `InvalidFree` to `Leak_IndirectlyLost`. `error.h` is not part of this model.

## Findings

| source | as written | input that shows it | evidently intended | confidence | as-written member | corrected member |
|---|---|---|---|---|---|---|
| share/qtcreator/gdbmacros/gdbmacros.cpp:590-644 | the numeric `put` overloads call `checkFill()` and then `sprintf` at `pos` whether or not `full` is set; `putItem(name, int)` and `putItemCount` (lines 756-760) write their numbers through them | a `QList` of more than 900 elements whose reply reaches the fill limit before child 900: children 900–999 each still add three digits to `name`, ending 200 characters past the end of the 1,000,000-character buffer | once full, write nothing more, as `put(char)` does | not executed; medium | `Dumper.NumberOverrun` | `Dumper.QDumper.PutItemNumber` |
| share/qtcreator/gdbmacros/gdbmacros.cpp:560-580 | every `@` stores into `templateParameters[templateParametersCount++]` with no check against the table's 11 entries | the inner type `@@@@@@@@@@@` (eleven `@`s) stores into entry 11 | record at most `maxTemplateParameters + 1` starts | not executed; high | `TemplateParams.ElevenSeparators` | `Dumper.QDumper.SetupTemplateParameters` |
| src/plugins/pythoneditor/pythonindenter.cpp:124-126 | `m_tabSize > 0 ? m_tabSize - tabSize : m_tabSize` on the `unsigned` `m_tabSize` | remembered indentation 2, tab size 4, blank previous line: `m_tabSize` becomes 4294967294 and the new line is given column −2 | lower the indentation by one step, never below 0 | not executed; high | `Indenter.BlankWrapsAsWritten` | `Indenter.BlankTabSize` |
| src/plugins/pythoneditor/pythonindenter.cpp:75 | `line[line.size() - 1]` reads the last character of the previous line, an index inside the line only when the line is not empty | an empty previous line (Return pressed twice) is read at index −1 | treat an empty line as a blank line | not executed; high | `Indenter.EmptyLineAsWritten` | `Indenter.EmptyLineIsBlank` |
