# A verified model of the tunnel and its JSON engine

This project models a redundant-send IP tunnel and the JSON reader and printer it carries, and proves
what they promise. `dafny verify dfyconfig.toml` checks it.

* **The JSON engine** (`cJSON.c`). `JsonSyntax` is a grammar that does not refer to the parser: syntax
  trees with their white space, escapes and number spellings, the text of a tree and the value of a tree.
  `JsonCodes` says what digits, escapes and code points stand for. `JsonParser`, `JsonPrinter` and
  `Minify` say what the code computes as functions of C strings. `JsonComplete` and `JsonSound` prove
  that the parser accepts exactly the grammar, `RoundTrip` that printed text parses back, `Minify` that
  minifying keeps the meaning, and `Unicode` that escapes become UTF-8. `Numerals`, `Literals`,
  `PrintedText` and `Comments` say in base ten and in character codes what numbers and escapes mean, how
  printed text looks and what the minifier takes out.
* **The same engine in memory.** `Heap` has the nodes of `struct cJSON` as objects with `next`, `prev`,
  `child` and the strings they point to, an allocator that may fail at any call and frees only what is
  allocated, and pictures of trees that say how the heap looks. The methods of `HeapParser`,
  `HeapDelete`, `HeapDuplicate`, `HeapLists`, `HeapOps` and `HeapObjects` rewire these nodes as the code
  does; `HeapStrings` copies strings and `HeapKeys` is about constant keys. `PrintAlloc` and
  `PrintBuffered` are the two printers over char arrays, and `MinifyInPlace` is the minifier over its own
  input. Each is proved against the functions above, together with what is allocated afterwards.
* **The path language** (`util_cjson.c`). `Path` unescapes keys in place, `Lookup` recurses over the
  tree, and when a lookup of a rendered list of steps is a walk is said exactly.
* **The scrambler and the checksum** (`cryp.c`, `in_cksum`). `Cryp` works on the bits of words in a byte
  buffer, `Cksum` on the integers of the accumulator.
* **The tunnel** (`simple_udp.c`, `tunnel.c`). `WireFrame` is the packet layout, `SimpleUdp` and `Tunnel`
  have the sender, the receiver and the reader thread as classes whose methods are proved equal to step
  functions, and `Runs` puts two endpoints and a network that loses datagrams together. `RunTheorems` and
  `RunLedger` hold the statements about whole runs.

Where the code does less than one would expect, the model follows the code:

* a packet with serial 0 is redundant to a receiver that has seen none (`LossTolerance` says so);
* `print_object` with a buffer uses one variable for the index it returns and for the tab count, so only
  at depth 0 does a formatted object return the start of its text (`PrintBuffered.PrintValue`);
* a string literal at the top level need not be closed (`ParserMeetsGrammar`), and such a text is the
  only accepted one on which the minifier leaves the buffer (`MinifyKeepsMeaning`);
* `cJSON_Duplicate` copies a constant key but keeps its flag, so that nothing frees the copy: deleting a
  duplicate frees all of it exactly if no key of the original is constant (`HeapKeys.DeletingCopy`, and
  `HeapDuplicate.ConstantKeyIsLost` for the smallest tree where one is), and a failure leaves behind
  exactly the copies of the constant keys of the nodes that had been copied (`HeapDuplicate.Duplicate`),
  that of the root among them if a child fails (`HeapDuplicate.CopyBelow`);
* `cJSON_lookup_obj` compares the whole type word, so an index step does not take an array for one that
  is a reference or has a constant key; a lookup is the walk if and only if no such array is indexed on
  the way or the walk leads nowhere (`Lookup.LookupWalks`, and `Lookup.FlaggedArrayIsMissed` for an
  input), and the typed lookups do not see a value with such a flag (`Lookup.ScalarWalks`);
* an index step behind one that was out of range dereferences NULL (`Lookup.LookupWalks`), and a negative
  index leads to the first child (`Lookup.GetArrayItem`);
* a child without a key, as a failed key copy leaves it, matches no name; what the object denotes has an
  empty key there, so that only a search for the empty name can differ (`HeapObjects.FirstNamedIs`);
* `cJSON_ReplaceItemInObject` does not free the key the new item had; apart from it only what the old
  member did not own stays behind (`HeapObjects.ReplaceItemInObject`).

## Model

| member | source | states |
|---|---|---|
| JsonSound.ParserMeetsGrammar | cJSON.c:785-822 | For every text and value: parsing with require_null_terminated returns the value if and only if the text is a rendering of it in the grammar of JsonSyntax, or a lone string literal that the text ends in the middle of, which the parser accepts |
| JsonComplete.TextComplete | cJSON.c:785-822 | Every rendering of a value, with any white space and any spelling of its characters and numbers, is accepted whole and gives the value |
| JsonSound.ClosedSound | cJSON.c:785-822 | Every accepted text other than a lone unterminated literal is a rendering of the value it gives |
| JsonSound.OpenSound | cJSON.c:460-475 | An accepted text whose top-level value is an unterminated literal is white space, a quote and units of a literal, and gives their value |
| JsonSound.OpenComplete | cJSON.c:606-612 | White space, a quote and the units of a literal are accepted without a closing quote |
| JsonComplete.ValueComplete | cJSON.c:853-896 | parse_value reads the text of every well-formed syntax tree, whatever follows, gives its value and stops right behind it |
| JsonSound.ValueSound | cJSON.c:853-896 | What parse_value consumes is the text of a well-formed syntax tree with the value it returns |
| JsonComplete.NumComplete | cJSON.c:130-197 | A number with sign, zero or digits, fraction and exponent denotes the exact decimal value |
| JsonSound.NumSound | cJSON.c:130-197 | What parse_number consumes is such a number, and its value is the result |
| Numerals.NumberMeans | cJSON.c:130-197 | In base ten: what a number comes to without its sign, times 1 with as many zeros as it has digits behind the point and its negative exponent says, is what all its digits make with as many zeros behind them as its positive exponent says |
| JsonComplete.LiteralComplete | cJSON.c:443-612 | parse_string reads every terminated literal to its closing quote and yields the characters of its units |
| JsonSound.LiteralSound | cJSON.c:443-612 | What parse_string consumes is a quote, a sequence of well-formed units and the closing quote, and the units give its result |
| JsonParser.Decode | cJSON.c:486-603 | The second pass of parse_string never yields more bytes than the first pass counted |
| Unicode.EscapesToUtf8 | cJSON.c:513-597 | Scalar values written as \uXXXX or surrogate pairs, digits in either case, come out of parse_string as the concatenation of their UTF-8 encodings, which a strict decoder turns back into the same sequence |
| Unicode.EncodeDecode | cJSON.c:557-595 | The UTF-8 encoder written backwards agrees with the decoder of RFC 3629 section 3 on every sequence of scalar values |
| Unicode.EscapedScalars | cJSON.c:513-597 | Every sequence of scalar values, escaped one by one, is read as its UTF-8 encoding |
| Unicode.LoneEscape | cJSON.c:515-555 | An escape is rejected if and only if it is NUL, a low surrogate, or a high surrogate that no escaped low surrogate follows |
| Unicode.LoneEscapeRejected | cJSON.c:523-552 | Wherever such an escape stands in a literal, the literal is rejected |
| Unicode.NoHexRejected | cJSON.c:513-528 | So is one with a \u that is not followed by four of 0-9, A-F and a-f |
| Literals.EscapeRead | cJSON.c:486-512 | Wherever a backslash and a character other than u stand in a literal, parse_string puts 8, 9, 10, 12 or 13 for b, t, n, f or r there and any other character itself |
| HeapParser.PutUtf8 | cJSON.c:557-596 | The bytes of a code point, written from the last backwards, are its UTF-8 encoding and touch nothing in front |
| HeapParser.Scan | cJSON.c:460-472 | The first pass finds the end of the literal and counts its length, or fails on a trailing backslash |
| HeapParser.ReadUnicode | cJSON.c:513-555 | A \u escape with its surrogate pair gives exactly the specified code point and position or is rejected |
| HeapParser.DecodeOne | cJSON.c:486-603 | One turn of the second pass stays in the block and brings the specified result one step closer |
| HeapParser.ParseString | cJSON.c:443-612 | The string in memory is the decoded literal; both passes end at the same place; a failure keeps the one block it may have allocated in the item |
| HeapParser.ReadDigits | cJSON.c:146-179 | A digit loop computes the value, the count and the rest |
| HeapParser.ParseNumber | cJSON.c:130-197 | The node gets the exact value of the number, which NumberMeans pins |
| HeapParser.ReadExponent | cJSON.c:165-183 | The signed exponent and the rest |
| HeapParser.ParseValue | cJSON.c:853-896 | Builds a separate, well-linked tree of fresh blocks that denotes the specified value; allocates exactly what the tree reaches even when it fails; fails only when the text is rejected or an allocation failed |
| HeapParser.ParseKeyword | cJSON.c:860-877 | null, false and true give their node type |
| HeapParser.ParseArray | cJSON.c:978-1042 | The same for arrays |
| HeapParser.ParseElems | cJSON.c:996-1030 | The loop over the elements keeps a doubly linked list of finished children whose values are the elements read |
| HeapParser.ReadNextElem | cJSON.c:1012-1029 | A new last child, linked both ways, filled with the next element |
| HeapParser.ParseObject | cJSON.c:1211-1303 | The same for objects, keys included |
| HeapParser.ParseMember | cJSON.c:1236-1256 | A key moves from valuestring to string and the value follows |
| HeapParser.ParseMembers | cJSON.c:1258-1293 | The loop over the members |
| HeapDelete.Delete | cJSON.c:106-127 | Frees each owned block of the list of trees exactly once and nothing else; references keep their value and children, constant keys stay |
| HeapDelete.DeleteOne | cJSON.c:112-126 | The body of the loop, for one node and all it owns |
| HeapDelete.OwnWhole | cJSON.c:112-125 | Without references and constant keys what is owned is all that is reached, and in a separate tree nothing is owned twice |
| HeapDelete.OwnAndLeft | cJSON.c:112-125 | What deleting a tree frees is all of it but the constant keys that are met and what the references that are met refer to |
| HeapDelete.ParseWithOpts | cJSON.c:785-822 | A failed parse leaves nothing allocated, whichever allocation failed; a successful one leaves exactly what its root reaches, and the root denotes what the grammar says |
| RoundTrip.PrintThenParse | cJSON.c:831-839 | Parsing the printed text of any value with 32-bit integers, formatted or not, gives the value back, order, keys and duplicates included |
| RoundTrip.PrintRenders | cJSON.c:899-975 | The printed text is a rendering of the value in the grammar |
| HeapRoundTrip.ParsePrintBuffered | cJSON.c:841-849 | Printing a tree in memory into a growing buffer and parsing it back gives a separate tree with the same denotation, consumes all of the text and leaves nothing else allocated; it fails only with an allocation |
| HeapRoundTrip.ParsePrinted | cJSON.c:831-839 | The same for the allocating printers |
| PrintLength.ValueAppend | cJSON.c:899-975 | What follows a printed value does not change its text |
| PrintScalars.CountString | cJSON.c:645-693 | The flag is set exactly when a character needs an escape, and the counted length is exactly that of the escaped text |
| PrintScalars.PutString | cJSON.c:670-754 | The copying pass writes exactly the specified text and as many bytes as were counted |
| PrintScalars.PutEscaped | cJSON.c:712-750 | One character, short escapes and \u00xx included |
| PrintedText.CharPrinted | cJSON.c:711-752 | In character codes: in a printed string every character from 32 on but 34 and 92 stands for itself, 8, 9, 10, 12, 13, 34 and 92 are a backslash and a letter, and the other control characters \u00 and two digits |
| PrintedText.PrintClean | cJSON.c:616-757 | No control character stands in unformatted text, and only line feeds and tabs do in formatted text |
| PrintedText.StringClean | cJSON.c:616-757 | No control character stands in a printed string |
| PrintedText.PrintFormats | cJSON.c:1045-1578 | Formatted text is the unformatted text with white space put in by a rule on its characters: a line feed and as many tabs as brackets are then open behind every opening brace, behind every comma between members and in front of every closing brace, a space behind every other comma and a tab behind every colon |
| PrintScalars.PutInt | cJSON.c:302-305 | The decimal digits of the integer |
| PrintScalars.IntWidth | cJSON.c:291-305 | A 32-bit integer fits into the bytes print_number asks for |
| PrintScalars.PutTabs | cJSON.c:1446-1449 | The tab loops write that many tabs |
| BufferWriting.PutEntry | cJSON.c:1188-1190 | strlen, memcpy and the advanced pointer copy an entry of the text |
| BufferWriting.EndsAt | cJSON.c:257-267 | A terminator behind the text is where strlen from any earlier offset ends |
| Int32Bits.Pow2gt | cJSON.c:200-212 | On the 32 bits of an int up to 2^30: the least power of two that is not smaller |
| Int32Bits.ValueBits | cJSON.c:200-212 | The bits of a count up to 2^30 stand for that count |
| PrintBuffered.PrintBuffer.Ensure | cJSON.c:221-254 | Room for the bytes behind the offset, the text kept through a regrowth, the old block freed; a failure frees the buffer |
| PrintBuffered.PrintBuffer.Update | cJSON.c:257-267 | The offset catches up with the end of the text |
| PrintBuffered.PrintStringPtr | cJSON.c:615-757 | The string at the offset, or the buffer freed |
| PrintBuffered.PrintNumber | cJSON.c:270-341 | The number at the offset, or the buffer freed |
| PrintBuffered.PrintValue | cJSON.c:906-939 | Any value at any depth: the text continues the buffer, and the index returned is the offset except that a formatted object that is not empty returns its depth, the tab counter |
| PrintBuffered.PrintArray | cJSON.c:1058-1128 | An array, empty or not |
| PrintBuffered.PrintElements | cJSON.c:1097-1119 | The loop over the elements, where a failed print_value is noticed at the next ensure |
| PrintBuffered.PrintObject | cJSON.c:1322-1454 | An object, empty or not |
| PrintBuffered.PrintFullObject | cJSON.c:1359-1454 | A member list between braces; the index comes from the tab loop when formatted |
| PrintBuffered.PrintMembersLoop | cJSON.c:1380-1437 | The loop over the members |
| PrintBuffered.PrintName | cJSON.c:1382-1411 | Indentation, key and colon of a member |
| PrintBuffered.PrintBuffered | cJSON.c:841-849 | For every tree, fmt and prebuffer of at least 1: the start of a buffer that holds exactly the text of the allocating printers and is all that is left allocated, or nothing allocated |
| PrintEntries.FreeEntries | cJSON.c:1170-1177 | The failure loop frees every collected string once |
| PrintEntries.FreePairs | cJSON.c:1507-1518 | The failure loop frees every collected name and value once |
| PrintAlloc.PrintStringPtr | cJSON.c:615-757 | A fresh block with the printed string |
| PrintAlloc.PrintNumber | cJSON.c:270-341 | A fresh block with the printed number |
| PrintAlloc.PrintValue | cJSON.c:941-973 | A fresh block with exactly the text of the value at that depth, and nothing else left allocated, however printing ends |
| PrintAlloc.PrintArray | cJSON.c:1065-1207 | The same for arrays |
| PrintAlloc.ArrayRoom | cJSON.c:1139-1160 | The length summed up covers the composed array at every depth and fmt |
| PrintAlloc.CollectElems | cJSON.c:1139-1154 | Each string collected is that of its element, and the length adds up |
| PrintAlloc.ComposeArray | cJSON.c:1182-1204 | The entries with their separators make the text of the array, each freed after use |
| PrintAlloc.PrintObject | cJSON.c:1324-1578 | The same for objects |
| PrintAlloc.ObjectRoom | cJSON.c:1472-1497 | The length summed up covers the composed object at every depth and fmt |
| PrintAlloc.CollectMembers | cJSON.c:1472-1492 | Each name and value collected is that of its member, and the length adds up; on a failure at most one of the two is missing |
| PrintAlloc.ComposeObject | cJSON.c:1524-1574 | Names and values with their separators make the text of the object, each freed after use |
| PrintAlloc.Print | cJSON.c:831-834 | The formatted text of the tree, or nothing allocated |
| PrintAlloc.PrintUnformatted | cJSON.c:836-839 | The unformatted text of the tree, or nothing allocated |
| Minify.MinifyKeepsMeaning | cJSON.c:2125-2187 | On every text the parser accepts, minifying stays inside the buffer if and only if the text is not a lone unterminated literal, and then the result parses to the same value |
| Minify.MinifyPrinted | cJSON.c:2125-2187 | Minifying printed text, formatted or not, gives the unformatted text byte for byte |
| Comments.GapTakenOut | cJSON.c:2128-2163 | Wherever it stands outside a string literal, a white space character or a closed comment does not change what is left |
| Comments.LastLineTakenOut | cJSON.c:2147-2154 | Neither does a line comment that ends with the text |
| MinifyInPlace.MinifyBuffer | cJSON.c:2125-2187 | The loop over the buffer itself: writing never overtakes reading, the result is the specified text, the cells behind the old terminator are untouched |
| MinifyInPlace.CopyLiteral | cJSON.c:2164-2177 | A string literal is copied with its escapes |
| MinifyInPlace.SkipBlockFrom | cJSON.c:2155-2163 | A block comment is skipped |
| HeapLists.Unlink | cJSON.c:1723-1736 | The neighbours of the item are linked to each other and the item to nothing |
| HeapLists.LinkInFront | cJSON.c:1782-1792 | The new item stands in front of the item found |
| HeapLists.LinkLast | cJSON.c:1645-1662 | The new item stands behind the last one |
| HeapLists.LinkInstead | cJSON.c:1807-1821 | The new item stands where the old one stood |
| HeapOps.AddItemToArray | cJSON.c:1643-1664 | The children of the container become the old ones and the item; shape, separation and completeness are kept |
| HeapOps.DetachItemFromArray | cJSON.c:1709-1739 | The child at the index, the first for a negative one, leaves with all below it; the others keep their order, and both trees stay complete; beyond the end nothing happens |
| HeapOps.InsertItemInArray | cJSON.c:1769-1793 | The item is inserted at the index, at the front for a negative one, at the end beyond it; the tree stays complete |
| HeapOps.ReplaceItemInArray | cJSON.c:1795-1823 | The child at the index is replaced and exactly what it owned is freed; the tree stays complete; beyond the end nothing happens |
| HeapViews.ElemsAreValues | cJSON.c:1643-1823 | The members in which the operations are specified determine the elements of an array |
| CString.SameNoCaseIs | cJSON.c:40-58 | Equality up to case is equal length and at every place the same character or a letter of A-Z and the one 32 above it |
| HeapObjects.StrCaseEqual | cJSON.c:40-58 | That equality is what the loop decides; a missing key equals nothing |
| HeapObjects.GetObjectItem | cJSON.c:1605-1613 | The first child whose key matches, whatever its case |
| HeapObjects.FirstNamedAgrees | cJSON.c:1605-1613 | Its key agrees with the name at every place but for the case of letters, and no key in front of it does |
| HeapObjects.AnyCase | cJSON.c:1605-1613 | A name in letters of another case finds the same child |
| HeapObjects.FirstNamedIs | cJSON.c:1605-1613 | That is the first member with the key in what the object denotes, if and only if the key is not empty or no child in front of it is without a key |
| HeapStrings.StrDup | cJSON.c:64-77 | A fresh copy of a string that is known |
| HeapStrings.StrDupFrom | cJSON.c:64-77 | A fresh copy of a string in memory, by strlen, malloc and memcpy |
| HeapObjects.AddItemToObject | cJSON.c:1666-1681 | The old key is freed, and the item becomes the last member under a fresh copy of the new one, or without a key when the copy fails; whether the other children have keys does not matter; the tree stays complete |
| HeapObjects.DetachItemFromObject | cJSON.c:1746-1761 | The first child with the key leaves, also where children have no key, and both trees stay complete |
| HeapObjects.DeleteItemFromArray | cJSON.c:1741-1744 | The child at the index leaves and exactly what it owned is freed; the tree stays complete |
| HeapObjects.DeleteItemFromObject | cJSON.c:1763-1766 | The first child with the key leaves, also where children have no key, and exactly what it owned is freed; the tree stays complete |
| HeapObjects.ReplaceItemInObject | cJSON.c:1825-1839 | The first child with the key is replaced and freed; the new one gets a copy of the key; of the blocks of both trees, those that stay allocated and are no longer reached are what the old child did not own and the former key of the new one; the tree stays complete |
| HeapDuplicate.Duplicate | cJSON.c:2052-2123 | A separate tree of fresh blocks with the same denotation, keys and flags, its root in no list and no node a reference, the original untouched; what deleting it frees is all of it exactly if no key is constant; if an allocation fails, what stays allocated is one fresh copy of each constant key among the first n nodes in preorder, n being the number of nodes copied, so nothing exactly if none of these has one, and nothing for a single node |
| HeapDuplicate.CopyBelow | cJSON.c:2097-2120 | The part about the children: all of them are copied, or the copies are deleted, and then the copy of a constant key of the root stays allocated |
| HeapKeys.DeletingCopy | cJSON.c:106-127 | Deleting a tree with the flags of the original frees all but its constant keys, so all of it if and only if the original has none |
| HeapKeys.OwnAndKeys | cJSON.c:112-125 | A tree without references is what deleting it frees and its constant keys |
| HeapDuplicate.ConstantKeyIsLost | cJSON.c:2083-2091 | After one node with a constant key has been duplicated and the duplicate deleted, the copy of the key is still allocated |
| HeapDuplicate.CopyNode | cJSON.c:2064-2091 | The part before the children, which cleans up after itself |
| HeapDuplicate.CopyLoop | cJSON.c:2097-2120 | The copies of the children hang on the new node in order |
| HeapDuplicate.Join | cJSON.c:2107-2118 | A copied child is linked behind the last one |
| Path.SplitEscaped | util_cjson.c:91-103 | Unescaping undoes escaping, up to the next step |
| Path.ShiftLeft | util_cjson.c:93-97 | Everything behind the backslash, terminator included, moves one to the left |
| Path.Unescape | util_cjson.c:90-104 | The buffer ends up with the unescaped key, and the length counted is that of the raw key |
| Path.ReadIndex | util_cjson.c:125-138 | The decimal index before the closing bracket, 0 for none, or -1 |
| Lookup.LookupWalks | util_cjson.c:79-149 | A rendered list of steps is one the code expects if and only if no index step comes behind an index out of range; then looking it up with NULL as the default gives the node that walking the tree by first key match or index leads to, if and only if no array with a flag is indexed on the way or the walk leads nowhere |
| Lookup.FlaggedArrayIsMissed | util_cjson.c:118-123 | In an object with an array of one element under a constant key "a", the walk of .a[0] leads to the element and the lookup returns NULL |
| Lookup.LookupDefaults | util_cjson.c:79-149 | With any default: the node reached, NULL if the last step takes an index that is out of range, and the default for anything else that is not found |
| Lookup.LookupAnyCase | util_cjson.c:79-149 | A path with keys in letters of another case finds the same node |
| Lookup.LookupObj | util_cjson.c:79-149 | The code computes the specified outcome for every path and default, recursing on ever shorter paths |
| Lookup.LookupKey | util_cjson.c:86-116 | A key step |
| Lookup.LookupIndex | util_cjson.c:118-144 | An index step, at nodes whose type word is that of an array |
| Lookup.GetArrayItem | cJSON.c:1593-1603 | The child at the index, the first for a negative one, or NULL |
| Lookup.ScalarWalks | util_cjson.c:151-204 | What the typed lookups see of a rendered list of steps is the value that the walk leads to, unless an array with a flag is indexed on the way or the node found has a flag |
| Lookup.LookupDouble | util_cjson.c:164-175 | The number found, or the default for anything else |
| Lookup.LookupStr | util_cjson.c:177-188 | The string found, which stays part of the tree, or the default for anything else |
| Lookup.LookupBool | util_cjson.c:190-204 | 1 or 0 for the boolean found, or the default for anything else |
| Cryp.LoopLeftShiftRotates | cryp.c:8-11 | The shifts and the or rotate the word, and n = 0 modulo 64 leaves it alone |
| Cryp.KeyIs | cryp.c:18-25 | The key of word 4k is the salted magic rotated left by 2k(k - 1) modulo 64 |
| Cryp.KeyRepeats | cryp.c:22-25 | The key stream repeats after 128 words |
| Cryp.DecEnc | cryp.c:28-31 | Unscrambling a scrambled buffer gives it back, for every length and magic |
| Cryp.ScrambledWord | cryp.c:22-25 | Every fourth word is combined with its key, and every other word stays |
| Cryp.ScrambledBit | cryp.c:13-26 | In the bits of bytes: bit i of word 4k is combined with bit j of the magic and bit j of the salt, j being i - 2k(k - 1) modulo 64 |
| Cryp.ScrambledTail | cryp.c:20-25 | The bytes behind the last whole word stay |
| Cryp.ScrambledPrefix | cryp.c:20-25 | Scrambling a prefix and scrambling the whole agree on the whole words of the prefix |
| Cryp.XorWord | cryp.c:23-23 | A word in memory is combined with the key byte by byte |
| Cryp.Enc | cryp.c:13-26 | The loop scrambles the buffer in place and touches nothing else |
| Cryp.Dec | cryp.c:28-31 | The same for dec |
| Cksum.InCksum | carrier/simple_icmp4/simple_icmp4.c:49-78 | The loop computes the checksum of RFC 1071, and no int overflows up to 65535 bytes |
| Cksum.Folded | carrier/simple_icmp4/simple_icmp4.c:71-75 | Folding the carries twice gives the ones' complement sum for every non-negative int |
| Cksum.StoredChecksum | carrier/simple_icmp4/simple_icmp4.c:49-78 | A buffer with its checksum stored in an aligned word that was zero sums to 0 |
| Cksum.ChecksumSwapped | carrier/simple_icmp4/simple_icmp4.c:49-78 | On even lengths, swapping the bytes of every word swaps the bytes of the result (RFC 1071 section 2 (B)) |
| Cksum.ChecksumChained | carrier/simple_icmp4/simple_icmp4.c:49-78 | Summing an even-length beginning and starting the rest with its complemented result is summing the whole |
| Cksum.ChecksumIsResidue | carrier/simple_icmp4/simple_icmp4.c:49-78 | The checksum is 65535 less the residue modulo 65535 of the whole buffer, read as one number with the low byte first, and the initial value |
| Cksum.ChecksumOdd | carrier/simple_icmp4/simple_icmp4.c:67-69 | A buffer of odd length sums like itself with a zero byte behind it |
| WireFrame.Ntohu64Twice | carrier/simple_udp/simple_udp.c:45-56 | ntohu64 undoes htonu64 |
| WireFrame.Ntohu64IsBe | carrier/simple_udp/simple_udp.c:45-56 | What htonu64 stores is big-endian |
| WireFrame.FrameRoundTrip | carrier/simple_udp/simple_udp.c:27-33 | The receiver finds the code, the serial, the length and the data that the sender put into the frame |
| WireFrame.FrameBytes | carrier/simple_udp/simple_udp.c:27-33 | The code stands at byte 8, the serial at 9 and the length at 17, both with the high byte first, and the data from 19 on |
| SimpleUdp.Context.SendPacket | carrier/simple_udp/simple_udp.c:237-277 | The class: a packet that is too long or has no peer is dropped and uses no serial; another is framed under the next serial modulo 2^64 and given to sendto dup_level times; the length limit is 65535, and as many datagrams leave as calls succeed, each the frame and to the peer |
| SimpleUdp.Context.FillFrame | carrier/simple_udp/simple_udp.c:256-259 | The buffer holds the frame |
| SimpleUdp.Context.Transmit | carrier/simple_udp/simple_udp.c:263-274 | The loop over the duplicates takes the sockets in turn and does not move on after an interrupted call |
| SimpleUdp.Context.Receive | carrier/simple_udp/simple_udp.c:308-338 | The peer becomes the source of every data packet; a packet with the previous serial is not passed on, and a datagram with another code changes nothing; a negative result of recvfrom is treated like a packet |
| RoundRobin.LeavingIsChosen | carrier/simple_udp/simple_udp.c:263-274 | The datagrams that leave are those of the uninterrupted attempts that went out, each from the socket of its attempt |
| RoundRobin.Balanced | carrier/simple_udp/simple_udp.c:263-274 | Over any run of sends the t-th uninterrupted attempt uses socket t mod n, and no socket is used more than once more than another |
| Filter.PassedCollapses | carrier/simple_udp/simple_udp.c:328-333 | The filter passes exactly the arrivals behind a virtual previous serial with adjacent equal ones collapsed |
| Filter.PassedIncreasing | carrier/simple_udp/simple_udp.c:328-333 | Serials that never go back are passed in strictly increasing order, and each that differs from the first previous one is passed |
| Filter.PassedAll | carrier/simple_udp/simple_udp.c:328-333 | If 0 to n - 1 arrive in order, each at least once, then 1 to n - 1 pass, once each |
| Tunnel.TunnelCtx.ReadPacket | tunnel.c:98-107 | The class: a packet read is scrambled in place, sent, and counted even when the carrier drops it |
| Tunnel.TunnelCtx.CbRecv | tunnel.c:68-81 | Received data is unscrambled in place, written and counted, if the tun device is open |
| Tunnel.TunnelCtx.Receive | carrier/simple_udp/simple_udp.c:308-338 | A datagram through the receiver and cb_recv |
| Tunnel.StaleBytes | carrier/simple_udp/simple_udp.c:311-339 | What an earlier datagram left behind in the buffer does not matter |
| Runs.StepKeeps | carrier/simple_udp/simple_udp.c:241-340 | Every step of two endpoints and the network keeps the invariant that ties serials, frames on their way, the filter, the peers, the sockets and the counters together |
| Runs.RunKeeps | carrier/simple_udp/simple_udp.c:241-340 | So does every run, in any order of arrival |
| RunTheorems.Fidelity | tunnel.c:68-114 | On a lossy in-order network with equal magic, what is written at either end is a subsequence of what was read at the other, and counts no more packets and bytes |
| RunTheorems.NothingInvented | tunnel.c:68-114 | In any order of arrival, every packet written was read at the other end |
| RunTheorems.FilterOverRuns | carrier/simple_udp/simple_udp.c:287-340 | In any run, reordering included, the serials passed are the arrivals behind a virtual 0 with adjacent equal ones collapsed; no two in a row are equal, and non-decreasing arrivals pass strictly increasing |
| RunTheorems.ArrivedOnce | carrier/simple_udp/simple_udp.c:263-333 | On an in-order network without wrap-around, the packets passed are exactly those of which a copy has arrived, except serial 0, each once and in serial order, whatever the magic; with an open device exactly these are written |
| RunTheorems.LossTolerance | carrier/simple_udp/simple_udp.c:263-333 | On an in-order network without wrap-around, if a copy of every packet has arrived, every packet with serial 1 or more has been written exactly once, in serial order |
| RunTheorems.PeerIs | carrier/simple_udp/simple_udp.c:203-324 | The peer is the source of the latest datagram, redundant ones included, and before that the configured address |
| RunTheorems.PeerStays | carrier/simple_udp/simple_udp.c:319-324 | A known peer stays known however a run goes on |
| RunTheorems.PassiveWaits | carrier/simple_udp/simple_udp.c:250-253 | In any run, a passive end that no datagram has reached has used no serial and no socket and sent nothing, whatever it has read |
| RunTheorems.PassiveSilence | carrier/simple_udp/simple_udp.c:209-253 | If both ends are passive, no datagram ever exists |
| RunTheorems.BalancedOverRuns | carrier/simple_udp/simple_udp.c:263-274 | In any run the t-th uninterrupted sendto of an end used socket t mod n, and the sockets are balanced |
| RunLedger.ReadOverRuns | tunnel.c:83-114 | In any run, the packets with a serial are exactly those of 1 to 65535 bytes that were read when the peer was known, and every datagram that sendto sent has arrived, is on its way or was lost |
| RunLedger.ReadCounted | tunnel.c:105-106 | In any run, the counters of sent packets and bytes are those of what was read |
| RunLedger.StepReads | carrier/simple_udp/simple_udp.c:237-277 | One event adds a frame and as many datagrams as sendto calls succeed exactly if it is such a read |
| RunLedger.OnTheWire | carrier/simple_udp/simple_udp.c:256-259 | In any run, a datagram on its way has code 0, its serial modulo 2^64 and the length of its packet in front of the scrambled packet |
| RunLedger.WrittenOverRuns | tunnel.c:68-81 | In any run, exactly the datagrams that were not redundant and arrived while the tun device was open have been written |

## Left out

- Sockets, poll, tun and tap devices, thread scheduling, data races, name resolution, shell commands and module loading; steps are atomic, addresses are opaque numbers, and the outcomes of sendto are inputs of the model.
- Floating point: numbers are exact reals, printing covers 32-bit integers, and `valueint` and the branches of print_number for other numbers are not modelled.
- JsonComplete.NumComplete: the value is an exact real, not the double that pow and the multiplications of parse_number would give.
- JsonSound.NumSound: the same.
- HeapParser.ParseNumber: the same, and `valueint` is not stored.
- PrintAlloc.PrintNumber: covers 32-bit integers; the branches for other doubles depend on the printf of the C library.
- PrintBuffered.PrintNumber: the same.
- Overflow of the int variables for lengths, exponents, indices and depths; texts in a growing buffer stay below 2^30 bytes, where pow2gt still fits an int.
- PrintBuffered.PrintBuffered: requires that the text and the slack of print_number fit below 2^30 bytes, because pow2gt overflows an int beyond that.
- MinifyInPlace.MinifyBuffer: requires that the minifier does not run past the terminator; `MinifyKeepsMeaning` says for which accepted texts it does not.
- Lookup.LookupObj: requires that the path has no index step at a missing node and no key that ends in a backslash, which the code does not check for; its strdup is taken not to fail.
- `cJSON_lookup_int`, because `valueint` is not modelled.
- The error pointer, NULL arguments of the list operations, cJSON_InitHooks, the cJSON_Create functions, references and constant keys as new items, cJSON_loadfile, includes and the printf handler.
- Memory is not reused after it has been freed, so reads of freed blocks are not caught; what is proved is that each block is freed once and which blocks remain.
- Reading an unsigned char differs from a signed one only in comparisons that the model writes out; locales other than C are not modelled.
- The size of struct sockaddr_in against IPv6 addresses in thr_rcv; the source address of a datagram arrives whole.
- Datagrams from anyone but the other end, receive errors, frames with another code or a wrong length in whole runs, and the wrap-around of the statistics counters.
- The rest of simple_icmp4.c, protocol.h, util_time.c, main.c, loop.c and carrier.c.
