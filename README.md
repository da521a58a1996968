# dnsjava core, modelled in Dafny

This project models five classes at the heart of dnsjava, a Java implementation of DNS, and proves
properties of the model:

- **Mnemonic** (`mnemonic.dfy`, module `Mnemonics`): the two-way table between
  numeric DNS constants and their text names, with its case policy, numeric prefix, range check,
  aliases, removal and merging. The class `Mnemonic` holds the two maps and updates them in place;
  each method is proved against a pure function on the table value (`Added`, `Aliased`,
  `Removed`, `AliasRemoved`, `Merged`), and the lookup laws are lemmas about those functions.
- **EDNSOption** (`edns.dfy`, module `Edns`): the EDNS(0) option framing of RFC 6891 section 6.1.2
  (a 16-bit code, a 16-bit length, the payload), the dispatch from option code to option class, the
  `Code` mnemonic table, `equals`/`hashCode` and `toString`. Reading and writing go through the
  classes `WireInput` and `WireOutput`, cursors over byte buffers; the framing is proved to round
  trip for every option class whose decoder stays inside its window.
- **RRset** (`rrset.dfy`, module `RRsets`): a set of records of one owner, type and class, kept as
  a data list and a signature list with one TTL. `addRR` enforces "same RRset" and lowers every
  TTL to the smallest seen (section 5.2 of RFC 2181); `deleteRR`, `clear`, the round-robin `rrs`
  and the accessors are modelled on the class `RRset`.
- **Master** (`master_parsing.dfy`, `master_lines.dfy` and `master.dfy`, modules `MasterParsing`,
  `MasterLines` and `Masters`): the zone master-file parser, which returns one record at a time,
  handles `$ORIGIN`, `$TTL`, `$INCLUDE` and `$GENERATE`, the class/TTL/type prefix in its five
  orders, the implied TTL and owner, and SOA-minimum TTLs. The parser is the class `Master`
  reading a `Tokenizer` (module `Tokens`). The line grammar is a set of pure functions
  (`ParseHeader`, `RecordLine`, `ParseRange`, `ParseGenerate`, `LineSpec`, `FirstLine`). What
  reading does to a parser is stated as functions from a `Config` (what a reader keeps) and a
  `Cursor` (what reading changes) to an `Effect` (the answer, the new cursor, and the generator
  and include left open): `LineEffect` for one pass of the loop of `nextRecordInternal`, `Scan`
  for the loop, `InternalOf` and `NextOf` for a call. Every method of `Master` ensures that its
  answer and its new state are its effect function's, and lemmas show that the effect functions
  agree with the grammar.
- **Options** (`options.dfy`, module `Options`): the library-wide option table, filled from a
  comma-separated option string, with case-insensitive names and `intValue`.

Shared pieces: `base.dfy` (Option, Result, Outcome), `text.dfy` (ASCII case mapping,
`Integer.parseInt`, `Long.parseLong`, `Integer.toString`, `String.indexOf`) and `records.dfy` (the
parts of a DNS record the core reads: owner, type, class, TTL, covered type of an RRSIG, and the
TTL-blind `Record.equals`).

Collaborators the core calls but that are not part of this model are parameters: the master
parser takes an `Env` record of functions standing for `DClass.value`, `Type.value`,
`TTL.parseTTL`, `Name.fromString`, `Record.fromString`, the SOA minimum, the `$GENERATE`
expander, and file opening; the option string is passed to `Refresh` instead of being read from
the system property; an option class's own encoder and decoder are function parameters of the
EDNS framing.

Where the library's own description and its code differ, the model follows the code:

- The `Code` table of EDNSOption is created case-sensitive (EDNSOption.java:149-150), so
  `Code.value("nsid")` is -1 (`Edns.CodeValueCaseSensitive`), although lookups are described as case
  insensitive.
- The text round trip `getValue(getText(v)) == v` of Mnemonic is not guaranteed: two values added
  under the same text leave the first with a text that now names the second
  (`Mnemonics.ReusedTextBreaksRoundTrip`); the round trip is proved under the conditions that make
  it hold (`Mnemonics.MappedRoundTrip`, `Mnemonics.UnmappedRoundTrip`).

## Model

| member | source | states |
|---|---|---|
| Text.CaseIdempotent | src/main/java/org/xbill/DNS/Mnemonic.java:71-78 | upper- and lower-casing twice equals casing once |
| Text.CaseAppend | src/main/java/org/xbill/DNS/Mnemonic.java:71-78 | case mapping distributes over concatenation |
| Text.IndexOfChar | src/main/java/org/xbill/DNS/Options.java:50 | String.indexOf: -1 exactly when the character is absent, else the position of its first occurrence |
| Text.ParseDecimal | src/main/java/org/xbill/DNS/Mnemonic.java:82 | a parsed value lies within the given bounds, and the text is digits, optionally after one leading sign |
| Text.ParseInt | src/main/java/org/xbill/DNS/Mnemonic.java:82 | Integer.parseInt gives a 32-bit value; a digit string is read as its value exactly when that fits |
| Text.ParseLong | src/main/java/org/xbill/DNS/Master.java:183 | Long.parseLong gives a 64-bit value; a digit string is read as its value exactly when that fits |
| Text.ParseSigned | src/main/java/org/xbill/DNS/Mnemonic.java:80-90 | "+" or "-" before digits gives the digits' value with that sign, when it is in range |
| Text.ToDecimalDigits | src/main/java/org/xbill/DNS/Mnemonic.java:166 | Integer.toString of a non-negative number is a non-empty digit string whose value is the number |
| Text.ParseToDecimal | src/main/java/org/xbill/DNS/Mnemonic.java:80-90 | parsing the decimal rendering of an in-range number gives the number back |
| Text.ParseAllDigits | src/main/java/org/xbill/DNS/Master.java:178-191 | a digit string parses to its digit value exactly when that value is in range |
| Records.WithTtl | src/main/java/org/xbill/DNS/RRset.java:121-122 | cloneRecord plus setTTL yields a record equal to the original except for the new TTL |
| Mnemonics.SanitizeIdempotent | src/main/java/org/xbill/DNS/Mnemonic.java:71-78 | sanitising a sanitised string changes nothing |
| Mnemonics.SanitizeAppend | src/main/java/org/xbill/DNS/Mnemonic.java:71-78 | sanitising distributes over concatenation |
| Mnemonics.SanitizeDigits | src/main/java/org/xbill/DNS/Mnemonic.java:71-78 | digit strings are unchanged by every case policy |
| Mnemonics.Sanitize | src/main/java/org/xbill/DNS/Mnemonic.java:71-78 | the text keeps its length and letters up to case, and is unchanged under the case-sensitive policy |
| Mnemonics.CheckRange | src/main/java/org/xbill/DNS/Mnemonic.java:64-68 | the check passes exactly for values in [0, max] |
| Mnemonics.ParseNumeric | src/main/java/org/xbill/DNS/Mnemonic.java:80-90 | the result is -1 or a value in [0, max]; it is Integer.parseInt's value exactly when that parse succeeds within [0, max], else -1 |
| Mnemonics.TextOf | src/main/java/org/xbill/DNS/Mnemonic.java:160-171 | getText fails exactly outside [0, max]; it returns the registered text when there is one, else the prefix followed by the decimal digits, else the bare decimal digits |
| Mnemonics.ParseNumericDecimal | src/main/java/org/xbill/DNS/Mnemonic.java:80-90 | every value in [0, max] is read back from its decimal text |
| Mnemonics.ParseNumericSigned | src/main/java/org/xbill/DNS/Mnemonic.java:80-90 | signs are accepted ("+42", "-0"), negatives and non-digits give -1 |
| Mnemonics.CaseInsensitiveLookup | src/main/java/org/xbill/DNS/Mnemonic.java:179-195 | under an upper- or lower-case policy, getValue ignores the case of its argument |
| Mnemonics.ValueOf | src/main/java/org/xbill/DNS/Mnemonic.java:179-195 | getValue answers the registered value of the sanitised text when there is one; otherwise the number after the prefix when that parses in range; otherwise, when numbers are allowed, the whole text as a number; otherwise -1; and -1 or a value in [0, max] whenever the stored values are in range |
| Mnemonics.MappedRoundTrip | src/main/java/org/xbill/DNS/Mnemonic.java:160-195 | getValue(getText(v)) == v for a registered value whose text still names it |
| Mnemonics.UnmappedRoundTrip | src/main/java/org/xbill/DNS/Mnemonic.java:160-195 | getValue(getText(v)) == v for an unregistered value rendered with the prefix or as a number |
| Mnemonics.ReusedTextBreaksRoundTrip | src/main/java/org/xbill/DNS/Mnemonic.java:98-103 | re-using a text for a second value makes getText(1) a text that getValue maps to 2 |
| Mnemonics.AddedLookup | src/main/java/org/xbill/DNS/Mnemonic.java:98-103 | after add(v, s), getText(v) is the sanitised s and getValue(s) is v |
| Mnemonics.AddedKeepsAliases | src/main/java/org/xbill/DNS/Mnemonic.java:98-103 | re-adding a value keeps its earlier texts as lookup keys for it |
| Mnemonics.AddedValid | src/main/java/org/xbill/DNS/Mnemonic.java:98-103 | add keeps every stored text in the table's case |
| Mnemonics.AliasedLookup | src/main/java/org/xbill/DNS/Mnemonic.java:123-127 | after addAlias(v, s), getValue(s) is v and getText is unchanged for every value |
| Mnemonics.AliasedValid | src/main/java/org/xbill/DNS/Mnemonic.java:123-127 | addAlias keeps every stored text in the table's case |
| Mnemonics.RemovedForgets | src/main/java/org/xbill/DNS/Mnemonic.java:111-114 | after remove(v), no entry names v and getText(v) falls back to the numeric form |
| Mnemonics.RemovedKeepsOthers | src/main/java/org/xbill/DNS/Mnemonic.java:111-114 | remove(v) leaves the entries of every other value as they were |
| Mnemonics.AliasRemovedLookup | src/main/java/org/xbill/DNS/Mnemonic.java:135-138 | after removeAlias(s), s is no longer a key and getText is unchanged |
| Mnemonics.MergedLookup | src/main/java/org/xbill/DNS/Mnemonic.java:146-152 | after addAll, the source's texts and values win every collision |
| Mnemonics.MergedValid | src/main/java/org/xbill/DNS/Mnemonic.java:146-152 | addAll of two tables with the same case policy keeps the table in that case |
| Mnemonics.Mnemonic.constructor | src/main/java/org/xbill/DNS/Mnemonic.java:40-46 | a new table is empty, with maximum Integer.MAX_VALUE, no prefix and numbers not allowed |
| Mnemonics.Mnemonic.SetMaximum | src/main/java/org/xbill/DNS/Mnemonic.java:49-51 | only the maximum changes |
| Mnemonics.Mnemonic.SetPrefix | src/main/java/org/xbill/DNS/Mnemonic.java:54-56 | only the prefix changes, and it is stored sanitised |
| Mnemonics.Mnemonic.SetNumericAllowed | src/main/java/org/xbill/DNS/Mnemonic.java:59-61 | only the numeric flag changes |
| Mnemonics.Mnemonic.Add | src/main/java/org/xbill/DNS/Mnemonic.java:98-103 | range check first; on success the table is Added and the new text and value look each other up; on failure nothing changes |
| Mnemonics.Mnemonic.Remove | src/main/java/org/xbill/DNS/Mnemonic.java:111-114 | the canonical text and every alias of the value are gone |
| Mnemonics.Mnemonic.AddAlias | src/main/java/org/xbill/DNS/Mnemonic.java:123-127 | range check first; on success the alias looks up the value and getText is unaffected |
| Mnemonics.Mnemonic.RemoveAlias | src/main/java/org/xbill/DNS/Mnemonic.java:135-138 | only the sanitised alias key is removed |
| Mnemonics.Mnemonic.AddAll | src/main/java/org/xbill/DNS/Mnemonic.java:146-152 | fails exactly when the case policies differ; otherwise both maps become unions with the source winning |
| Mnemonics.Mnemonic.GetText | src/main/java/org/xbill/DNS/Mnemonic.java:160-171 | out of range throws; else the canonical text of the value, or its number after the prefix |
| Mnemonics.Mnemonic.GetValue | src/main/java/org/xbill/DNS/Mnemonic.java:179-195 | the value registered for the sanitised text; -1 with no match and neither prefix nor numbers; -1 or a value in [0, max] when the stored values are in range |
| Edns.DispatchTable | src/main/java/org/xbill/DNS/EDNSOption.java:251-275 | codes 3, 8, 10, 11, 15 have their own class, 5-7 share one, every other code is generic |
| Edns.KindOf | src/main/java/org/xbill/DNS/EDNSOption.java:251-275 | each option class is chosen exactly for its own codes (DAU, DHU and N3U sharing one) |
| Edns.NewOption | src/main/java/org/xbill/DNS/EDNSOption.java:196-198 | an option is created exactly for codes that fit 16 bits |
| Edns.U16RoundTrip | src/main/java/org/xbill/DNS/EDNSOption.java:243-244 | a 16-bit value written big-endian is read back unchanged |
| Edns.ParseOption | src/main/java/org/xbill/DNS/EDNSOption.java:239-280 | a decoded option consumes at least its 4-byte header and no more than the input |
| Edns.TruncatedIsRejected | src/main/java/org/xbill/DNS/EDNSOption.java:245-247 | a declared length beyond the remaining input is "truncated option" for every decoder |
| Edns.DecoderSeesOnlyWindow | src/main/java/org/xbill/DNS/EDNSOption.java:239-280 | bytes after the option do not change how it is decoded |
| Edns.WireRoundTrip | src/main/java/org/xbill/DNS/EDNSOption.java:239-311 | decoding the wire form of an option gives the option back and consumes exactly its wire form |
| Edns.HashStepArithmetic | src/main/java/org/xbill/DNS/EDNSOption.java:344-350 | each hash step is h * 9 plus the unsigned byte, modulo 2^32 |
| Edns.EqualOptionsHashEqual | src/main/java/org/xbill/DNS/EDNSOption.java:331-351 | equal options have equal hash codes |
| Edns.OptionEquals | src/main/java/org/xbill/DNS/EDNSOption.java:331-340 | two options are equal exactly when their codes agree and their payloads agree byte by byte |
| Edns.HashCode | src/main/java/org/xbill/DNS/EDNSOption.java:344-351 | the loop computes the hash fold over the payload |
| Edns.WireInput.constructor | src/main/java/org/xbill/DNS/EDNSOption.java:239 | the cursor starts at 0 with the whole buffer active |
| Edns.WireInput.ReadU16 | src/main/java/org/xbill/DNS/EDNSOption.java:243-244 | with two bytes left it returns them big-endian and advances by 2; otherwise it fails and stays |
| Edns.FromWire | src/main/java/org/xbill/DNS/EDNSOption.java:239-280 | the method succeeds exactly when ParseOption does, returns its option and advances the cursor by the bytes it consumed |
| Edns.WireOutput.constructor | src/main/java/org/xbill/DNS/EDNSOption.java:304-311 | a new output is empty |
| Edns.WireOutput.WriteU16 | src/main/java/org/xbill/DNS/EDNSOption.java:305 | appends the two big-endian bytes of the value |
| Edns.WireOutput.WriteBytes | src/main/java/org/xbill/DNS/EDNSOption.java:308 | appends the bytes |
| Edns.WireOutput.WriteU16At | src/main/java/org/xbill/DNS/EDNSOption.java:310 | overwrites two bytes in place exactly when the value fits 16 bits |
| Edns.ToWire | src/main/java/org/xbill/DNS/EDNSOption.java:304-311 | appends code, length and payload when the payload fits 16 bits; otherwise the length back-patch fails |
| Edns.CodeStringExamples | src/main/java/org/xbill/DNS/EDNSOption.java:149-190 | known codes render by name, others as CODE<n>, and codes beyond 16 bits are rejected |
| Edns.CodeString | src/main/java/org/xbill/DNS/EDNSOption.java:149-180 | Code.string succeeds exactly for 16-bit codes: the registered name, else CODE and the decimal digits |
| Edns.CodeValue | src/main/java/org/xbill/DNS/EDNSOption.java:149-190 | Code.value gives a registered name's code, and otherwise -1 or a 16-bit code |
| Edns.CodeTablesInverse | src/main/java/org/xbill/DNS/EDNSOption.java:157-174 | each registered code's name maps back to that code |
| Edns.CodeValuePrefix | src/main/java/org/xbill/DNS/EDNSOption.java:149-190 | an unregistered code's prefix form CODE<n> is read back as n |
| Edns.CodeValueNumber | src/main/java/org/xbill/DNS/EDNSOption.java:149-190 | bare numbers are read, since numeric strings are allowed |
| Edns.CodeValueCaseSensitive | src/main/java/org/xbill/DNS/EDNSOption.java:149-190 | the table is case-sensitive: "nsid" is not NSID and gives -1 |
| Edns.NotACodeKey | src/main/java/org/xbill/DNS/EDNSOption.java:149-175 | no registered option name starts with the prefix CODE |
| Edns.CodeRoundTrip | src/main/java/org/xbill/DNS/EDNSOption.java:149-190 | every 16-bit code's text reads back as that code |
| Edns.Display | src/main/java/org/xbill/DNS/EDNSOption.java:201-203 | the rendering is wrapped in braces |
| RRsets.AllWithTtl | src/main/java/org/xbill/DNS/RRset.java:134-141 | every element is replaced by an equal record with the new TTL, in order |
| RRsets.IndexOf | src/main/java/org/xbill/DNS/RRset.java:154-166 | the index found is within the list or one past it |
| RRsets.IndexOfFirst | src/main/java/org/xbill/DNS/RRset.java:154-166 | List.indexOf finds the first equal element, and none exactly when there is none |
| RRsets.RemoveFirstKeeps | src/main/java/org/xbill/DNS/RRset.java:154-166 | List.remove drops one equal element, keeps the list duplicate-free and adds nothing |
| RRsets.RotateIsPermutation | src/main/java/org/xbill/DNS/RRset.java:185-192 | the cycled list holds the same records, each as often |
| RRsets.RotateOrder | src/main/java/org/xbill/DNS/RRset.java:189-191 | the cycled list is the stored order from the start index, wrapping round to the front |
| RRsets.Added | src/main/java/org/xbill/DNS/RRset.java:106-151 | adding fails exactly when the set is non-empty and the record is not of its RRset |
| RRsets.AcceptsMeansSameRRset | src/main/java/org/xbill/DNS/RRset.java:143-151 | in a valid set, checking both lists is checking sameRRset against the first record |
| RRsets.AllWithTtlKeeps | src/main/java/org/xbill/DNS/RRset.java:134-141 | re-TTL'ing keeps distinctness, RRset, kind and membership, and makes the TTL uniform |
| RRsets.AllWithTtlSame | src/main/java/org/xbill/DNS/RRset.java:134-141 | re-TTL'ing a list to the TTL it already has changes nothing |
| RRsets.AppendNewKeeps | src/main/java/org/xbill/DNS/RRset.java:129-131 | add-if-absent keeps the list duplicate-free, contains the record after, and loses nothing |
| RRsets.AppendNewUniform | src/main/java/org/xbill/DNS/RRset.java:129-131 | adding a record of the same RRset, kind and TTL keeps the list uniform |
| RRsets.AddedValid | src/main/java/org/xbill/DNS/RRset.java:106-132 | a successful add keeps both lists duplicate-free, of one RRset, and at the set's TTL |
| RRsets.AddedEffect | src/main/java/org/xbill/DNS/RRset.java:106-132 | after an add the record is in its list, nothing was lost, and the TTL is the lower of the two |
| RRsets.AddedIdempotent | src/main/java/org/xbill/DNS/RRset.java:106-132 | adding the same record again changes nothing |
| RRsets.DeletedValid | src/main/java/org/xbill/DNS/RRset.java:154-166 | deleting keeps the set valid and leaves no equal record in the record's list |
| RRsets.Deleted | src/main/java/org/xbill/DNS/RRset.java:154-166 | only the list of the record's kind changes; it loses exactly one element when it held an equal record, nothing otherwise, and gains none |
| RRsets.AddedAllFromEmpty | src/main/java/org/xbill/DNS/RRset.java:46-66 | building from records succeeds exactly when all are of the first's RRset, and the TTL is their minimum |
| RRsets.AddedStep | src/main/java/org/xbill/DNS/RRset.java:106-132 | one add succeeds exactly for records of the set's RRset and lowers the TTL to the minimum |
| RRsets.AddedAllLast | src/main/java/org/xbill/DNS/RRset.java:46-66 | after one more successful add, the new record and every record already held are in their lists |
| RRsets.AddedAllContainsAt | src/main/java/org/xbill/DNS/RRset.java:46-66 | the i-th record given to the constructor is in the list its kind selects |
| RRsets.AddedAllContains | src/main/java/org/xbill/DNS/RRset.java:46-66 | every record given to the constructor is in the list its kind selects |
| RRsets.AddedAllFailureSticks | src/main/java/org/xbill/DNS/RRset.java:46-66 | once one record is rejected, the whole construction fails |
| RRsets.RRset.IsEmpty | src/main/java/org/xbill/DNS/RRset.java:228-230 | empty exactly when size and sigSize are both 0 |
| RRsets.RRset.Size | src/main/java/org/xbill/DNS/RRset.java:209-211 | the number of data records |
| RRsets.RRset.SigSize | src/main/java/org/xbill/DNS/RRset.java:218-220 | the number of signatures |
| RRsets.RRset.constructor | src/main/java/org/xbill/DNS/RRset.java:30-33 | a new set has no records |
| RRsets.RRset.FromRecord | src/main/java/org/xbill/DNS/RRset.java:36-39 | the set holds the one record, unchanged, with its TTL |
| RRsets.RRset.Copy | src/main/java/org/xbill/DNS/RRset.java:69-74 | the copy has the same lists, cursor and TTL |
| RRsets.RRset.FromRecords | src/main/java/org/xbill/DNS/RRset.java:46-66 | succeeds exactly when all records are of one RRset, with the state AddedAll gives |
| RRsets.RRset.AdjustTtl | src/main/java/org/xbill/DNS/RRset.java:134-141 | the loop replaces every element by its copy with the TTL |
| RRsets.RRset.AddTo | src/main/java/org/xbill/DNS/RRset.java:106-132 | fails exactly as Added does, changing nothing; on success the state is Added's |
| RRsets.RRset.AddRR | src/main/java/org/xbill/DNS/RRset.java:96-103 | routes the record by kind and behaves as Added |
| RRsets.RRset.AddSignature | src/main/java/org/xbill/DNS/RRset.java:84-86 | adds a signature as Added does |
| RRsets.RRset.DeleteRR | src/main/java/org/xbill/DNS/RRset.java:159-166 | removes the first equal record from the list its kind selects |
| RRsets.RRset.DeleteSignature | src/main/java/org/xbill/DNS/RRset.java:154-156 | removes the first equal signature |
| RRsets.RRset.Clear | src/main/java/org/xbill/DNS/RRset.java:169-172 | both lists are emptied and the TTL stays |
| RRsets.RRset.Rrs | src/main/java/org/xbill/DNS/RRset.java:180-193 | a permutation of the data records: the stored order without cycling, else rotated by the cursor, which advances and wraps at Short.MAX_VALUE |
| RRsets.RRset.First | src/main/java/org/xbill/DNS/RRset.java:280-289 | the first data record if there is one, else the first signature; fails exactly on an empty set |
| RRsets.RRset.GetName | src/main/java/org/xbill/DNS/RRset.java:237-239 | fails exactly on an empty set, else the first record's owner |
| RRsets.RRset.GetType | src/main/java/org/xbill/DNS/RRset.java:247-249 | fails exactly on an empty set, else the first record's RRset type, which for signatures alone is their covered type |
| RRsets.RRset.GetActualType | src/main/java/org/xbill/DNS/RRset.java:257-259 | the first data record's type, else that of the first signature |
| RRsets.RRset.GetDClass | src/main/java/org/xbill/DNS/RRset.java:266-268 | fails exactly on an empty set, else the first record's class |
| RRsets.RRset.GetTTL | src/main/java/org/xbill/DNS/RRset.java:271-273 | fails exactly on an empty set, else the first record's TTL |
| RRsets.RRset.AccessorsAgree | src/main/java/org/xbill/DNS/RRset.java:237-289 | name, type and class agree with every member; the TTL is the set's; all fail exactly on an empty set |
| Tokens.Tokenizer.Get | src/main/java/org/xbill/DNS/Master.java:294-303 | returns the next token (skipping whitespace unless wanted), EOF at the end; fails once closed |
| Tokens.Tokenizer.Unget | src/main/java/org/xbill/DNS/Master.java:240 | the last token read will be read again |
| Tokens.Tokenizer.GetString | src/main/java/org/xbill/DNS/Master.java:136-156 | succeeds exactly when a word or quoted string comes next, and consumes it |
| Tokens.Tokenizer.GetIdentifier | src/main/java/org/xbill/DNS/Master.java:199 | succeeds exactly when an unquoted word comes next, and consumes it |
| Tokens.Tokenizer.GetEOL | src/main/java/org/xbill/DNS/Master.java:239 | passes exactly when end of line or input comes next |
| Tokens.Tokenizer.Close | src/main/java/org/xbill/DNS/Master.java:454 | the tokenizer is closed |
| MasterParsing.ParseUInt32Digits | src/main/java/org/xbill/DNS/Master.java:178-191 | parseUInt32 accepts exactly the non-empty digit strings whose value fits 32 unsigned bits |
| MasterParsing.ParseUInt32 | src/main/java/org/xbill/DNS/Master.java:178-191 | -1, or the digit value of a digit string that fits 32 unsigned bits |
| MasterParsing.RangeParts | src/main/java/org/xbill/DNS/Master.java:200-211 | no range exactly when there is no '-'; the start holds no '-' and the end no '/' |
| MasterParsing.SplitFirst | src/main/java/org/xbill/DNS/Master.java:200-210 | no split exactly when the character is absent; otherwise the part before holds none of it and the character follows it |
| MasterParsing.RangePartsJoin | src/main/java/org/xbill/DNS/Master.java:200-211 | the pieces are the text: start, '-', end and, if present, '/' and the step |
| MasterParsing.ParseRange | src/main/java/org/xbill/DNS/Master.java:199-222 | an accepted range has start <= end, both 32-bit, and a step of at least 1; every failure is "invalid range" |
| MasterParsing.ParseRangeMeaning | src/main/java/org/xbill/DNS/Master.java:199-222 | a range is accepted exactly when its pieces are 32-bit digit strings with start <= end and step >= 1, and then it is their values, the step defaulting to 1 |
| MasterParsing.ParseRangeAsWritten | src/main/java/org/xbill/DNS/Master.java:178-222 | the code as written fails with StringIndexOutOfBounds exactly when a piece of the range is empty |
| MasterParsing.RangeVersionsAgree | src/main/java/org/xbill/DNS/Master.java:178-222 | the code as written and the corrected parser agree whenever no piece is empty |
| MasterParsing.EmptyRangePieceCrashes | src/main/java/org/xbill/DNS/Master.java:178-222 | "1-" and "-5" hit charAt(0) on an empty string as written, and are rejected when corrected |
| MasterParsing.RangeDefaultStep | src/main/java/org/xbill/DNS/Master.java:212-222 | "1-10" is 1..10 with step 1 |
| MasterParsing.RangeBackwards | src/main/java/org/xbill/DNS/Master.java:212-222 | a start beyond the end is rejected |
| MasterParsing.ParseHeader | src/main/java/org/xbill/DNS/Master.java:125-176 | the prefix takes 1 to 4 words and gives a type and a non-negative TTL; a deferred TTL is 0, only for an SOA, and only when no TTL is implied |
| MasterParsing.HeaderForms | src/main/java/org/xbill/DNS/Master.java:125-160 | the class and TTL may come in either order before the type, and the class defaults to IN |
| MasterParsing.HeaderImpliedTtl | src/main/java/org/xbill/DNS/Master.java:164-175 | a missing TTL is the default TTL, else the last record's, else an SOA waits for its minimum, else "missing TTL" |
| MasterParsing.HeaderUnknownType | src/main/java/org/xbill/DNS/Master.java:160-164 | an unknown type is rejected, naming the word |
| MasterParsing.LineFields | src/main/java/org/xbill/DNS/Master.java:376-384 | the words up to the end of line, and the tokens consumed including the end |
| MasterParsing.RecordLine | src/main/java/org/xbill/DNS/Master.java:376-384 | a record line consumes its header; with an SOA TTL pending the record's TTL becomes the new default TTL, otherwise the default TTL is kept |
| MasterParsing.RecordLineBuilds | src/main/java/org/xbill/DNS/Master.java:376-384 | the record is Record.fromString's; with an SOA TTL pending it takes the SOA minimum, which becomes the default TTL, and a record that is not an SOA fails the cast |
| MasterParsing.ParseGenerate | src/main/java/org/xbill/DNS/Master.java:193-249 | a $GENERATE line is consumed up to, and not including, its end of line |
| MasterParsing.GenerateTail | src/main/java/org/xbill/DNS/Master.java:225-240 | the rest of a $GENERATE line is consumed up to its end of line |
| MasterParsing.GenerateSpecValid | src/main/java/org/xbill/DNS/Master.java:193-249 | an accepted $GENERATE has a valid range, a supported type, the current origin and the header's class, TTL and type |
| MasterParsing.GenerateTailSpec | src/main/java/org/xbill/DNS/Master.java:225-249 | the generator gets the range given, the name pattern, a supported type and the header's class, TTL and type |
| Tokens.ReadAtAhead | src/main/java/org/xbill/DNS/Master.java:294-303 | one whitespace-skipping read returns the first token ahead, EOF when there is none, and removes it from what is ahead |
| Tokens.AheadAfter | src/main/java/org/xbill/DNS/Master.java:376-384 | n whitespace-skipping reads remove exactly the first n tokens ahead |
| Tokens.Tokenizer.Advance | src/main/java/org/xbill/DNS/Master.java:376-384 | the tokens a record line was built from are read: what is ahead loses exactly those n words |
| MasterLines.Generated | src/main/java/org/xbill/DNS/Master.java:258-264 | a generated record or a failure, the failure reported as "Parsing $GENERATE" |
| MasterLines.LineOutcome | src/main/java/org/xbill/DNS/Master.java:376-384 | a line's record is the answer, and its error the error |
| MasterLines.BlankEnd | src/main/java/org/xbill/DNS/Master.java:295-309 | reading resumes after a blank line strictly later, within the tokens |
| MasterLines.FirstLine | src/main/java/org/xbill/DNS/Master.java:291-311 | the line the loop stops at is never a blank one |
| MasterLines.FirstPos | src/main/java/org/xbill/DNS/Master.java:291-311 | the first line that is not blank starts at or after the position given, within the tokens, and is not blank |
| MasterLines.LineEnd | src/main/java/org/xbill/DNS/Master.java:315-331 | getEOL at the end of a directive only moves forward and opens no generator or include when reading goes on |
| MasterLines.WordEffect | src/main/java/org/xbill/DNS/Master.java:312-374 | a line that starts with a word only moves forward, keeps the tokenizer as open as it was and only appends $GENERATE specs |
| MasterLines.DirectiveEffect | src/main/java/org/xbill/DNS/Master.java:312-367 | a directive only moves forward, keeps the tokenizer as open as it was and only appends $GENERATE specs |
| MasterLines.OriginEffect | src/main/java/org/xbill/DNS/Master.java:315-318 | $ORIGIN only moves forward and opens nothing |
| MasterLines.TtlEffect | src/main/java/org/xbill/DNS/Master.java:319-322 | $TTL only moves forward and opens nothing |
| MasterLines.IncludeEffect | src/main/java/org/xbill/DNS/Master.java:323-354 | $INCLUDE only moves forward; reading goes on only with no include open |
| MasterLines.SkipEffect | src/main/java/org/xbill/DNS/Master.java:324-331 | a disabled $INCLUDE only moves forward and opens nothing |
| MasterLines.IncludeFileEffect | src/main/java/org/xbill/DNS/Master.java:333-354 | an enabled $INCLUDE only moves forward; reading goes on only with no include open |
| MasterLines.Target | src/main/java/org/xbill/DNS/Master.java:333-348 | reading an $INCLUDE's words only moves forward, within the tokens |
| MasterLines.Begun | src/main/java/org/xbill/DNS/Master.java:239-249 | an accepted $GENERATE line moves forward, keeps the tokenizer as open as it was and appends to the specs seen |
| MasterLines.GenerateEffect | src/main/java/org/xbill/DNS/Master.java:355-364 | $GENERATE only moves forward and only appends $GENERATE specs; reading goes on only with no generator open |
| MasterLines.LineEffect | src/main/java/org/xbill/DNS/Master.java:291-311 | one pass of the loop only moves forward, keeps the tokenizer as open as it was and only appends $GENERATE specs; going round again (an empty line) always moves |
| MasterLines.LineEffectMeetsLineSpec | src/main/java/org/xbill/DNS/Master.java:291-374 | one pass of the loop does what the line grammar says: a blank line is passed over to just after its end of line with nothing else changed, an answered line (record, error, end of file) gives that answer, and a directive line runs the directive from just after its word on exactly the words that follow |
| MasterLines.ContinuedEffectMeetsLine | src/main/java/org/xbill/DNS/Master.java:295-307 | after a leading blank: the end of the line continues just past it, the end of input ends the file, no previous record is "no owner", else the previous owner's record line is the answer |
| MasterLines.ContinuedEffect | src/main/java/org/xbill/DNS/Master.java:295-307 | a line that starts with whitespace goes on only after reading its end of line |
| MasterLines.Scan | src/main/java/org/xbill/DNS/Master.java:291-386 | the loop ends with an answer, the position only moving forward, the tokenizer as open as it was and $GENERATE specs only appended |
| MasterLines.ScanSkipsBlankLines | src/main/java/org/xbill/DNS/Master.java:291-311 | the loop from any line does what it does from the first line that is not blank, and that line is the one FirstLine reads |
| MasterLines.ScanMeetsLineSpec | src/main/java/org/xbill/DNS/Master.java:291-386 | from a line that is not blank, an answered line is the loop's answer, and a directive that goes on is followed by the loop from where it leaves the state, so $ORIGIN, $TTL, a skipped $INCLUDE, an empty included file and an unexpanded $GENERATE are passed over |
| MasterLines.FirstAnswer | src/main/java/org/xbill/DNS/Master.java:273-386 | a new reader's first call answers with its first line that is not blank, when that line is a record, an error or the end |
| MasterLines.InternalOf | src/main/java/org/xbill/DNS/Master.java:273-386 | every call ends with an answer, the position only moving forward, the tokenizer as open as it was and $GENERATE specs only appended |
| MasterLines.NextOf | src/main/java/org/xbill/DNS/Master.java:395-405 | after a call the tokenizer is closed exactly when it was already, or the answer is an error or the end of the file; the position only moves forward and $GENERATE specs are only appended |
| MasterLines.RecordEffect | src/main/java/org/xbill/DNS/Master.java:376-384 | a record line ends the call with its record or error; on success the record is the last one read, its default TTL is kept and no SOA TTL is pending |
| MasterLines.RecordEffectReads | src/main/java/org/xbill/DNS/Master.java:376-384 | the answer is RecordLine's record or error; a record reads exactly its line's words, and a failing line changes nothing |
| MasterLines.OriginEffectMeaning | src/main/java/org/xbill/DNS/Master.java:315-318 | $ORIGIN goes on exactly when a name and the end of the line follow, and then the origin is that name made absolute against the root and two words are read; otherwise it is an error; only the position and origin change |
| MasterLines.TtlEffectMeaning | src/main/java/org/xbill/DNS/Master.java:319-322 | $TTL goes on exactly when a TTL and the end of the line follow, and then it is the default TTL and two words are read; otherwise it is an error; only the position and default TTL change |
| MasterLines.SkipEffectMeaning | src/main/java/org/xbill/DNS/Master.java:324-331 | a disabled $INCLUDE is refused in strict mode; otherwise it goes on exactly when a string and the end of the line follow, which are read; only the position changes |
| MasterLines.TargetMeaning | src/main/java/org/xbill/DNS/Master.java:333-348 | an enabled $INCLUDE's words are accepted exactly when a file name comes first, it is absolute or this reader has a file, and a second string, if any, is a name followed by the end of the line; the path is then the name resolved against this file unless absolute, and the origin that name or else the current origin |
| MasterLines.GenerateEffectMeaning | src/main/java/org/xbill/DNS/Master.java:355-364 | a $GENERATE that does not parse fails with nothing changed; otherwise its spec is appended, its pending SOA TTL noted, its words read and nothing else changes; expanded, the answer is the first generated record and the generator is open; unexpanded, none is |
| MasterLines.ReadIncludedEffect | src/main/java/org/xbill/DNS/Master.java:349-354 | reading an included file never changes this reader's own state |
| Masters.IncludedAnswer | src/main/java/org/xbill/DNS/Master.java:349-354 | a reader opened for an $INCLUDE has answered its first line that is not blank when that line is a record, an error or the end |
| Masters.Master.Init | src/main/java/org/xbill/DNS/Master.java:39-47 | a reader on the tokens, file and depth given, with all flags off, starting at the first token with the origin and TTL given, nothing read, nothing included or generated and no call made |
| Masters.Master.OpenStream | src/main/java/org/xbill/DNS/Master.java:89-96 | a relative origin is rejected; otherwise a reader over the stream, as Init |
| Masters.Master.OpenFile | src/main/java/org/xbill/DNS/Master.java:39-80 | a relative origin is rejected, then an unopenable file is an I/O error; otherwise a reader on the file's tokens, path and depth with all flags off, at the first token with the origin and TTL given, nothing read and no call made |
| Masters.Master.NextRecord | src/main/java/org/xbill/DNS/Master.java:395-405 | the settings do not change; the answer and every field of the new state (position, closed, origin, default TTL, last record, pending SOA TTL, $GENERATE specs, open generator and include) are NextOf's; the call is counted and its answer kept; an open include is asked exactly once, and one opened by this call is new, asked once, and its answer is this call's |
| Masters.Master.NextRecordInternal | src/main/java/org/xbill/DNS/Master.java:273-386 | the settings do not change; the answer and the new state are InternalOf's: an open include's record or error first, then an open generator's, and when the generator runs out the end of its line is read and the loop runs; otherwise the loop |
| Masters.Master.AskIncluded | src/main/java/org/xbill/DNS/Master.java:277-283 | the open include is asked exactly once and its answer returned; it stays open exactly when it answered a record or an error; nothing of this reader's state changes |
| Masters.Master.AskGenerator | src/main/java/org/xbill/DNS/Master.java:284-290 | the generator's record or error is the answer with the counter moved on, as InternalOf says; when it has no more, the end of its line is read, it is closed, and what is left is the loop from there |
| Masters.Master.ReadLines | src/main/java/org/xbill/DNS/Master.java:291-386 | the answer and the new state are Scan's: passes of the loop until one gives an answer |
| Masters.Master.Step | src/main/java/org/xbill/DNS/Master.java:294-374 | the answer (or going round again) and the new state are LineEffect's |
| Masters.Master.ContinuedStep | src/main/java/org/xbill/DNS/Master.java:295-307 | the answer and the new state are ContinuedEffect's |
| Masters.Master.WordStep | src/main/java/org/xbill/DNS/Master.java:312-374 | the answer and the new state are WordEffect's: an empty word fails, a '$' word is a directive, any other word the owner, a bad name failing |
| Masters.Master.ReadRecord | src/main/java/org/xbill/DNS/Master.java:368-384 | the answer and the new state are RecordEffect's, and the record's class, type and TTL become current |
| Masters.Master.Commit | src/main/java/org/xbill/DNS/Master.java:376-384 | the record line's words are read, the record becomes the last one, its default TTL is kept, no SOA TTL is pending and its header becomes current; nothing else changes |
| Masters.Master.Directive | src/main/java/org/xbill/DNS/Master.java:312-367 | the answer and the new state are DirectiveEffect's: the directive is matched without regard to case, and an unknown one is refused |
| Masters.Master.OriginDirective | src/main/java/org/xbill/DNS/Master.java:315-318 | the answer and the new state are OriginEffect's |
| Masters.Master.TtlDirective | src/main/java/org/xbill/DNS/Master.java:319-322 | the answer and the new state are TtlEffect's |
| Masters.Master.EndLine | src/main/java/org/xbill/DNS/Master.java:315-331 | getEOL at the end of a directive: the answer and the new state are LineEnd's |
| Masters.Master.Include | src/main/java/org/xbill/DNS/Master.java:323-354 | the answer and the new state are IncludeEffect's; an include left open is new, asked once, and gave the answer |
| Masters.Master.SkipInclude | src/main/java/org/xbill/DNS/Master.java:324-331 | the answer and the new state are SkipEffect's |
| Masters.Master.IncludeFile | src/main/java/org/xbill/DNS/Master.java:333-354 | the answer and the new state are IncludeFileEffect's; when the words are accepted, the depth allows it, the origin is absolute and the file opens, a new reader on that file, one level less deep, with the origin read and the current TTL, has been asked exactly once |
| Masters.Master.IncludeTarget | src/main/java/org/xbill/DNS/Master.java:333-348 | the path, origin and position are Target's |
| Masters.Master.ReadIncluded | src/main/java/org/xbill/DNS/Master.java:349-354 | the answer and the new state are ReadIncludedEffect's; when the depth allows it, the origin is absolute and the file opens, a new reader on that file, one level less deep, with the origin given and the current TTL, has been asked exactly once |
| Masters.Master.ReadFirst | src/main/java/org/xbill/DNS/Master.java:349-354 | a relative origin and an unopenable file fail with no reader; otherwise a new reader on the file, with the depth, origin and TTL given, has been asked exactly once and its answer is returned |
| Masters.Master.Generate | src/main/java/org/xbill/DNS/Master.java:355-364 | the answer and the new state are GenerateEffect's |
| Masters.Master.RecordGenerate | src/main/java/org/xbill/DNS/Master.java:359-362 | unexpanded: the answer and the new state are GenerateEffect's |
| Masters.Master.ExpandFirst | src/main/java/org/xbill/DNS/Master.java:359-364 | expanded: the answer and the new state are GenerateEffect's |
| Masters.Master.StartGenerate | src/main/java/org/xbill/DNS/Master.java:193-249 | on failure nothing changes; otherwise the state is Begun's, the generator is open and unasked, the header fields are ParseGenerate's and the end of the line comes next |
| Masters.Master.Begin | src/main/java/org/xbill/DNS/Master.java:239-249 | the state is Begun's: the line's words read, its spec appended, its pending SOA TTL noted; the generator is open and its header current |
| Masters.Master.EndGenerate | src/main/java/org/xbill/DNS/Master.java:251-256 | the generator is closed; a closed tokenizer fails with nothing changed, otherwise the position and outcome are LineEnd's |
| Masters.Master.NextGenerated | src/main/java/org/xbill/DNS/Master.java:258-264 | the next generated record, the counter moving one on |
| Masters.Master.DisableIncludes | src/main/java/org/xbill/DNS/Master.java:412-426 | $INCLUDE is disabled, strictly or not |
| Masters.Master.ExpandGenerate | src/main/java/org/xbill/DNS/Master.java:433-435 | only the expansion flag changes |
| Masters.Master.Close | src/main/java/org/xbill/DNS/Master.java:452-456 | the tokenizer is closed |
| Options.SetLookup | src/main/java/org/xbill/DNS/Options.java:68-73 | after set(o), o in any case holds "true" and nothing else changes |
| Options.SetValueLookup | src/main/java/org/xbill/DNS/Options.java:76-81 | after set(o, v), o holds v in lower case and nothing else changes |
| Options.UnsetLookup | src/main/java/org/xbill/DNS/Options.java:84-89 | after unset(o), only o is gone, and a table never set stays null |
| Options.IntValue | src/main/java/org/xbill/DNS/Options.java:108-121 | -1 unless the value parses as a positive int, which is then the result |
| Options.Lookup | src/main/java/org/xbill/DNS/Options.java:92-105 | the value stored under the option's lower-case name; nothing for a null table |
| Options.Multiline | src/main/java/org/xbill/DNS/Options.java:123-129 | multiline() holds exactly when check("multiline") does: false for a null table |
| Options.SplitPieces | src/main/java/org/xbill/DNS/Options.java:47 | every piece of the option string is non-empty and free of commas |
| Options.SplitJoin | src/main/java/org/xbill/DNS/Options.java:47-48 | splitting comma-joined pieces gives the pieces back |
| Options.SplitSkipsLeadingComma | src/main/java/org/xbill/DNS/Options.java:47 | empty pieces are skipped |
| Options.AssignAllStep | src/main/java/org/xbill/DNS/Options.java:48-58 | the pieces are applied one after another |
| Options.AssignFlag | src/main/java/org/xbill/DNS/Options.java:51-52 | a piece without '=' sets that option to "true" |
| Options.AssignPair | src/main/java/org/xbill/DNS/Options.java:53-57 | a piece is split at its first '=', the value keeping any later '=' |
| Options.OptionTable.constructor | src/main/java/org/xbill/DNS/Options.java:34-40 | the initial table is what refresh builds from the property |
| Options.OptionTable.Refresh | src/main/java/org/xbill/DNS/Options.java:44-60 | each piece is applied in order on top of the existing table; no property changes nothing |
| Options.OptionTable.Clear | src/main/java/org/xbill/DNS/Options.java:63-65 | no option is set afterwards |
| Options.OptionTable.Set | src/main/java/org/xbill/DNS/Options.java:68-73 | the option is then set and holds "true" |
| Options.OptionTable.SetValue | src/main/java/org/xbill/DNS/Options.java:76-81 | the option then holds the value in lower case |
| Options.OptionTable.Unset | src/main/java/org/xbill/DNS/Options.java:84-89 | the option is then not set |
| Options.OptionTable.Check | src/main/java/org/xbill/DNS/Options.java:92-97 | check(o) holds exactly when value(o) is not null; false for a null table |
| Options.OptionTable.Value | src/main/java/org/xbill/DNS/Options.java:100-105 | the value under the lower-case name, null when absent or when the table is null |

## Left out

- Tokenizer.java is not part of this model: quoting, comments, parentheses and line counting are taken as already done, and the parser reads a finished token sequence.
- File and stream I/O: opening a file is `Env.open`, absolute-path tests and resolution are `Env.isAbsolutePath` and `Env.resolve`.
- Name.java, Record.java, TTL.java, DClass.java, Type.java and Generator.java are not part of this model; their operations are functions in `Env` or the few record fields the core reads.
- Masters.Master.ReadRecord: on an exception the source may already have written `currentTTL`, `currentType` and other fields; the model commits a line's effects only when the line succeeds, and the tokenizer is closed after any failure, so the difference is not observable through `nextRecord`.
- Masters.Master.Step: the owner-name object sharing of Master.java:371-373 only changes object identity, which the model does not have.
- Masters.Master.ReadIncluded: `$INCLUDE` nesting is bounded by a `budget` (failing with `IncludeTooDeep` past it); the source recurses without a bound.
- The scratch fields `currentType`, `currentDClass` and `currentTTL`, and the tokenizer's put-back position, are not part of `Cursor`: each is written before it is read within a line, so the effect functions do not track them; `ReadRecord`, `Commit`, `StartGenerate` and `Begin` state them separately.
- Masters.Master.RecordGenerate and Masters.Master.ExpandFirst each require the expansion setting that selects them; `Generate` chooses between them on that setting, as the source's `if (noExpandGenerate)` does.
- Masters.Master.NextGenerated: the `$GENERATE` expansion itself (Generator.nextRecord) is the function `Env.generated`.
- The `IllegalStateException` "cannot nest $GENERATE" (Master.java:356-357) cannot be reached; it is stated as part of the parser's invariant instead.
- A `RelativeNameException` raised by `Tokenizer.getName` is folded into `BadName`/`RelativeName` errors; exception message texts are not modelled, only which error occurs.
- `Character.isDigit`, `toUpperCase` and `toLowerCase` are modelled on ASCII only.
- `System.getProperty("dnsjava.options")` and the static initialisers are parameters; the static option table is one `OptionTable` object.
- The Master constructors that default the TTL to -1 and the origin to null are covered by `OpenFile` and `OpenStream` with those arguments.
- RRset.toString and the EDNS option subclasses' payload formats are not modelled; a subclass is an encoder/decoder pair and a renderer passed in.
- Masters.Master.Generators: `generators()` is an accessor with no property of its own.
- MasterParsing.ParseGenerate: its contract states only the tokens consumed; what an accepted line holds is `MasterParsing.GenerateSpecValid`.
- MasterParsing.ParseGenerate: the range is read with the corrected `ParseRange`, so an empty start, end or step gives the "Invalid $GENERATE range specifier" error where the code as written raises the StringIndexOutOfBoundsException of Master.java:179 (see Findings); `ParseRangeAsWritten` keeps the written behaviour.

## Findings

| source | as written | input that shows it | evidently intended | confidence | as-written member | corrected member |
|---|---|---|---|---|---|---|
| src/main/java/org/xbill/DNS/Master.java:178-222 | `parseUInt32` reads `charAt(0)` before checking that the piece is non-empty, so an empty start, end or step raises StringIndexOutOfBoundsException | `$GENERATE 1- ...` or `$GENERATE -5 ...` | the "Invalid $GENERATE range specifier" error the other malformed ranges get | not executed | MasterParsing.ParseRangeAsWritten / MasterParsing.EmptyRangePieceCrashes | MasterParsing.ParseRange |
