/**
 * What the master-file parser decides from the words of one line: unsigned 32-bit numbers and
 * `$GENERATE` ranges, the class/TTL/type fields in any of their five accepted orders, and the
 * TTL a record gets. The collaborators the parser calls (class and type tables, TTL syntax, name
 * and record parsing, `$GENERATE` expansion, files) are not part of this model and are passed in
 * as functions.
 */
module MasterParsing {
  import opened Base
  import opened Text
  import opened Records
  import opened Tokens

  const UINT32_MAX: int := 0xFFFF_FFFF
  /** DClass.IN */
  const IN: int := 1

  /** The exceptions the parser raises; most are Tokenizer.exception's TextParseException. */
  datatype MasterError =
    | TokenFailure(error: TokenError)     // from the tokenizer's own checks
    | InvalidRange(spec: string)          // "Invalid $GENERATE range specifier"
    | InvalidType(word: string)           // "Invalid type"
    | MissingTtl                          // "missing TTL"
    | NoOwner                             // "no owner"
    | InvalidDirective(word: string)      // "Invalid directive"
    | IncludeDisabled                     // "$INCLUDE encountered, but processing disabled in strict mode"
    | RelativeInclude                     // "Cannot $INCLUDE using relative path when parsing from stream"
    | GenerateUnsupported(rrType: int)    // "$GENERATE does not support ... records"
    | GenerateFailed(message: string)     // "Parsing $GENERATE: ..."
    | BadName(message: string)            // Name.fromString rejected a name
    | BadRecord(message: string)          // Record.fromString rejected the data
    | RelativeName(name: Name)            // RelativeNameException for a relative origin
    | IndexOutOfBounds                    // charAt(0) of an empty string
    | ClassCast                           // the SOA cast of a record that is not an SOA
    | Io(message: string)                 // an included file that cannot be opened
    | IncludeTooDeep                      // includes nested beyond the model's depth bound

  /** The parsed contents of a `$GENERATE` line (the Generator constructor's arguments). */
  datatype GeneratorSpec = GeneratorSpec(
    start: int, end: int, step: int, nameSpec: string,
    rrType: int, dclass: int, ttl: int, rdataSpec: string, origin: Option<Name>)

  /** The collaborators of the parser. */
  datatype Env = Env(
    classValue: string -> int,                      // DClass.value, negative when unknown
    typeValue: string -> int,                       // Type.value, negative when unknown
    parseTtl: string -> Option<nat>,                // TTL.parseTTL, None for NumberFormatException
    nameFromString: (string, Option<Name>) -> Result<Name, string>,
    makeRecord: (Name, int, int, int, seq<Token>, Option<Name>) -> Result<Record, string>,
    soaMinimum: Record -> Option<nat>,              // SOARecord.getMinimum, None when not an SOA
    supportedType: int -> bool,                     // Generator.supportedType
    generated: (GeneratorSpec, nat) -> Result<Option<Record>, string>,  // the k-th Generator.nextRecord
    isAbsolutePath: string -> bool,                 // File.isAbsolute
    resolve: (string, string) -> string,            // new File(parent of the current file, name)
    open: string -> Result<seq<Token>, string>)     // a Tokenizer on a file

  // ---------------------------------------------------------------------------------------------
  // Numbers and ranges

  /**
   * parseUInt32 as corrected: -1 unless the string starts with a digit and parses as a long
   * within [0, 2^32 - 1].
   */
  function ParseUInt32(s: string): (r: int)
    ensures r == -1 || (UInt32Text(s) && r == DigitsValue(s))
  {
    if |s| == 0 || !IsDigit(s[0]) then -1
    else
      match ParseLong(s)
      case None => -1
      case Some(l) => if 0 <= l <= UINT32_MAX then l else -1
  }

  /** A non-empty string of decimal digits whose value fits 32 unsigned bits. */
  predicate UInt32Text(s: string) {
    |s| > 0 && AllDigits(s) && DigitsValue(s) <= UINT32_MAX
  }

  /** parseUInt32 as written: the first character is read before anything checks that there is one. */
  function ParseUInt32AsWritten(s: string): Result<int, MasterError> {
    if |s| == 0 then Failure(IndexOutOfBounds) else Success(ParseUInt32(s))
  }

  /** parseUInt32 accepts exactly the non-empty digit strings whose value fits 32 unsigned bits. */
  lemma ParseUInt32Digits(s: string)
    ensures ParseUInt32(s) == -1 || (|s| > 0 && AllDigits(s) && 0 <= ParseUInt32(s) <= UINT32_MAX && ParseUInt32(s) == DigitsValue(s))
    ensures |s| > 0 && AllDigits(s) && DigitsValue(s) <= UINT32_MAX ==> ParseUInt32(s) == DigitsValue(s)
  {
    if |s| > 0 && IsDigit(s[0]) {
      if AllDigits(s) {
        ParseAllDigits(s, LONG_MIN, LONG_MAX);
      }
    }
  }

  /** A `$GENERATE` range: start-end with an optional /step. */
  datatype Range = Range(start: int, end: int, step: int)

  /** String.indexOf(c) and the substrings around it: the text before the first c and after it. */
  function SplitFirst(s: string, c: char): (r: Option<(string, string)>)
    ensures r.None? <==> c !in s
    ensures r.Some? ==> c !in r.value.0 && |r.value.0| < |s| && s[|r.value.0|] == c
  {
    var n := IndexOfChar(s, c);
    if n < 0 then None else Some((s[..n], s[n + 1..]))
  }

  /** The two substrings and the separator between them make up the string again. */
  lemma SplitFirstJoin(s: string, c: char)
    requires SplitFirst(s, c).Some?
    ensures s == SplitFirst(s, c).value.0 + [c] + SplitFirst(s, c).value.1
  {
    var n := IndexOfChar(s, c);
    assert s == s[..n] + [s[n]] + s[n + 1..];
  }

  /** The pieces of start-end[/step]: split at the first '-', then the rest at its first '/'. */
  function RangeParts(s: string): (r: Option<(string, string, Option<string>)>)
    ensures r.None? <==> '-' !in s
    ensures r.Some? ==> '-' !in r.value.0 && '/' !in r.value.1
  {
    match SplitFirst(s, '-')
    case None => None
    case Some((startstr, rest)) =>
      match SplitFirst(rest, '/')
      case None => Some((startstr, rest, None))
      case Some((endstr, stepstr)) => Some((startstr, endstr, Some(stepstr)))
  }

  /**
   * The pieces are the text itself: start, then '-', then end, then '/' and the step if there is
   * one; with the two ensures of RangeParts, start has no '-' and end no '/', so these are the
   * pieces at the first '-' and the first '/' after it.
   */
  lemma RangePartsJoin(s: string)
    requires RangeParts(s).Some?
    ensures var (a, b, c) := RangeParts(s).value;
      s == a + "-" + b + (if c.Some? then "/" + c.value else "")
  {
    SplitFirstJoin(s, '-');
    var (a, rest) := SplitFirst(s, '-').value;
    assert s == a + "-" + rest;
    match SplitFirst(rest, '/')
    case None =>
      assert RangeParts(s).value == (a, rest, None);
      assert rest + "" == rest;
    case Some((b, c)) =>
      SplitFirstJoin(rest, '/');
      assert RangeParts(s).value == (a, b, Some(c));
      JoinPieces(s, a, rest, b, c);
  }

  /** Putting the pieces back: the '/' split inside the '-' split. */
  lemma JoinPieces(s: string, a: string, rest: string, b: string, c: string)
    requires s == a + "-" + rest && rest == b + "/" + c
    ensures s == a + "-" + b + ("/" + c)
  {
  }

  /**
   * The range of startGenerate as corrected: rejected when there is no '-', when start or end
   * is not a 32-bit unsigned number, when start exceeds end, or when the step is not positive.
   */
  function ParseRange(s: string): (r: Result<Range, MasterError>)
    ensures r.Failure? ==> r.error == InvalidRange(s)
    ensures r.Success? ==> 0 <= r.value.start <= r.value.end <= UINT32_MAX && 1 <= r.value.step <= UINT32_MAX
  {
    match RangeParts(s)
    case None => Failure(InvalidRange(s))
    case Some((startstr, endstr, stepstr)) =>
      var start := ParseUInt32(startstr);
      var end := ParseUInt32(endstr);
      var step := if stepstr.Some? then ParseUInt32(stepstr.value) else 1;
      if start < 0 || end < 0 || start > end || step <= 0 then Failure(InvalidRange(s))
      else Success(Range(start, end, step))
  }

  /**
   * A range is accepted exactly when start, end and the optional step are 32-bit unsigned digit
   * strings with start <= end and a positive step; the range holds their values, step 1 by default.
   */
  lemma ParseRangeMeaning(s: string)
    ensures ParseRange(s).Success? <==>
      RangeParts(s).Some? &&
      var (a, b, c) := RangeParts(s).value;
      UInt32Text(a) && UInt32Text(b) && (c.Some? ==> UInt32Text(c.value)) &&
      DigitsValue(a) <= DigitsValue(b) && (c.Some? ==> DigitsValue(c.value) >= 1)
    ensures ParseRange(s).Success? ==>
      var (a, b, c) := RangeParts(s).value;
      UInt32Text(a) && UInt32Text(b) && (c.Some? ==> UInt32Text(c.value)) &&
      ParseRange(s).value == Range(DigitsValue(a), DigitsValue(b), if c.Some? then DigitsValue(c.value) else 1)
  {
    if RangeParts(s).Some? {
      var (a, b, c) := RangeParts(s).value;
      ParseUInt32Digits(a);
      ParseUInt32Digits(b);
      if c.Some? {
        ParseUInt32Digits(c.value);
      }
    }
  }

  /** The range of startGenerate as written: an empty start, end or step reaches charAt(0). */
  function ParseRangeAsWritten(s: string): (r: Result<Range, MasterError>)
    ensures r == Failure(IndexOutOfBounds) <==>
      RangeParts(s).Some? &&
      var (a, b, c) := RangeParts(s).value;
      |a| == 0 || |b| == 0 || (c.Some? && |c.value| == 0)
  {
    match RangeParts(s)
    case None => Failure(InvalidRange(s))
    case Some((startstr, endstr, stepstr)) =>
      match ParseUInt32AsWritten(startstr)
      case Failure(e) => Failure(e)
      case Success(start) =>
        match ParseUInt32AsWritten(endstr)
        case Failure(e) => Failure(e)
        case Success(end) =>
          match (if stepstr.Some? then ParseUInt32AsWritten(stepstr.value) else Success(1))
          case Failure(e) => Failure(e)
          case Success(step) =>
            if start < 0 || end < 0 || start > end || step <= 0 then Failure(InvalidRange(s))
            else Success(Range(start, end, step))
  }

  /** The two versions differ only where a piece is empty; the corrected one then rejects the range. */
  lemma RangeVersionsAgree(s: string)
    requires RangeParts(s).Some?
    requires var p := RangeParts(s).value; |p.0| > 0 && |p.1| > 0 && (p.2.Some? ==> |p.2.value| > 0)
    ensures ParseRangeAsWritten(s) == ParseRange(s)
  {
  }

  /** "1-" and "-5" make the code as written fail with an index error instead of rejecting the range. */
  lemma EmptyRangePieceCrashes()
    ensures ParseRangeAsWritten("1-") == Failure(IndexOutOfBounds)
    ensures ParseRange("1-") == Failure(InvalidRange("1-"))
    ensures ParseRangeAsWritten("-5") == Failure(IndexOutOfBounds)
    ensures ParseRange("-5") == Failure(InvalidRange("-5"))
  {
    assert "1-"[0] == '1' && "1-"[1] == '-';
    assert "1-"[1..] == "-" && "1-"[..1] == "1" && "1-"[2..] == "";
    assert RangeParts("1-") == Some(("1", "", None));
    assert ParseLong("1") == Some(1) by {
      assert "1"[..0] == "";
      assert DigitsValue("1") == 1;
    }
    assert "-5"[0] == '-';
    assert "-5"[..0] == "";
    assert RangeParts("-5") == Some(("", "5", None));
  }

  /** "1-10" is the range 1..10 with the default step. */
  lemma RangeDefaultStep()
    ensures ParseRange("1-10") == Success(Range(1, 10, 1))
  {
    assert "1-10"[1] == '-' && '-' !in "1-10"[..1];
    assert "1-10"[..1] == "1" && "1-10"[2..] == "10";
    assert SplitFirst("1-10", '-') == Some(("1", "10"));
    assert '/' !in "10";
    assert DigitsValue("1") == 1 by { assert "1"[..0] == ""; }
    assert DigitsValue("10") == 10 by { assert "10"[..1] == "1"; assert "1"[..0] == ""; }
    ParseRangeMeaning("1-10");
  }

  /** A range whose start exceeds its end is rejected. */
  lemma RangeBackwards()
    ensures ParseRange("10-1") == Failure(InvalidRange("10-1"))
  {
    assert "10-1"[2] == '-' && '-' !in "10-1"[..2];
    assert "10-1"[..2] == "10" && "10-1"[3..] == "1";
    assert SplitFirst("10-1", '-') == Some(("10", "1"));
    assert '/' !in "1";
    assert DigitsValue("1") == 1 by { assert "1"[..0] == ""; }
    assert DigitsValue("10") == 10 by { assert "10"[..1] == "1"; assert "1"[..0] == ""; }
    ParseRangeMeaning("10-1");
  }

  // ---------------------------------------------------------------------------------------------
  // Class, TTL and type

  /** The class, TTL and type of a record, and how many words they took. */
  datatype Header = Header(dclass: int, ttl: int, rrType: int, needSoaTtl: bool, used: nat)

  /** The i-th word ahead, read with getString. */
  function Word(ahead: seq<Token>, i: nat): Result<string, MasterError> {
    if i < |ahead| && IsString(ahead[i]) then Success(ahead[i].value)
    else Failure(TokenFailure(Expected("a string")))
  }

  /**
   * The TTL a record gets when its line has none: the $TTL default if set (non-negative), else
   * the previous record's TTL, else -1 (none).
   */
  function ImpliedTtl(defaultTTL: int, last: Option<Record>): int {
    if defaultTTL >= 0 then defaultTTL else if last.Some? then last.value.ttl else -1
  }

  /**
   * parseTTLClassAndType on the words ahead: an optional class, an optional TTL, the class if it
   * was not first, then the type. The class defaults to IN; a missing TTL takes the implied one;
   * with none at all only an SOA is accepted, with TTL 0 until its minimum is known.
   */
  function ParseHeader(env: Env, ahead: seq<Token>, defaultTTL: int, last: Option<Record>): (r: Result<Header, MasterError>)
    ensures r.Success? ==>
              && 1 <= r.value.used <= 4 && r.value.used <= |ahead|
              && r.value.rrType >= 0
              && (r.value.needSoaTtl ==> r.value.rrType == SOA && r.value.ttl == 0)
              && r.value.ttl >= 0
              && (r.value.needSoaTtl ==> ImpliedTtl(defaultTTL, last) < 0)
  {
    match Word(ahead, 0)
    case Failure(e) => Failure(e)
    case Success(w0) =>
      var seenClass := env.classValue(w0) >= 0;
      var i0: nat := if seenClass then 1 else 0;
      match Word(ahead, i0)
      case Failure(e) => Failure(e)
      case Success(s1) =>
        var explicit := env.parseTtl(s1);
        var i1: nat := if explicit.Some? then i0 + 1 else i0;
        match Word(ahead, i1)
        case Failure(e) => Failure(e)
        case Success(s2) =>
          var ttl := if explicit.Some? then explicit.value else ImpliedTtl(defaultTTL, last);
          var classHere := !seenClass && env.classValue(s2) >= 0;
          var dclass := if seenClass then env.classValue(w0) else if classHere then env.classValue(s2) else IN;
          var i2: nat := if classHere then i1 + 1 else i1;
          match Word(ahead, i2)
          case Failure(e) => Failure(e)
          case Success(s3) =>
            var t := env.typeValue(s3);
            if t < 0 then Failure(InvalidType(s3))
            else if ttl < 0 && t != SOA then Failure(MissingTtl)
            else Success(Header(dclass, if ttl < 0 then 0 else ttl, t, ttl < 0, i2 + 1))
  }

  /** The five accepted orders of class, TTL and type, and the class default. */
  lemma HeaderForms(env: Env, a: string, b: string, c: string, rest: seq<Token>, defaultTTL: int, last: Option<Record>)
    ensures var ahead := [Ident(a), Ident(b), Ident(c)] + rest;
      && (env.classValue(a) >= 0 && env.parseTtl(b).Some? && env.typeValue(c) >= 0 ==>
            ParseHeader(env, ahead, defaultTTL, last) == Success(Header(env.classValue(a), env.parseTtl(b).value, env.typeValue(c), false, 3)))
      && (env.classValue(a) < 0 && env.parseTtl(a).Some? && env.classValue(b) >= 0 && env.typeValue(c) >= 0 ==>
            ParseHeader(env, ahead, defaultTTL, last) == Success(Header(env.classValue(b), env.parseTtl(a).value, env.typeValue(c), false, 3)))
      && (env.classValue(a) >= 0 && env.parseTtl(b).None? && env.typeValue(b) >= 0 && defaultTTL >= 0 ==>
            ParseHeader(env, ahead, defaultTTL, last) == Success(Header(env.classValue(a), defaultTTL, env.typeValue(b), false, 2)))
      && (env.classValue(a) < 0 && env.parseTtl(a).Some? && env.classValue(b) < 0 && env.typeValue(b) >= 0 ==>
            ParseHeader(env, ahead, defaultTTL, last) == Success(Header(IN, env.parseTtl(a).value, env.typeValue(b), false, 2)))
      && (env.classValue(a) < 0 && env.parseTtl(a).None? && env.typeValue(a) >= 0 && defaultTTL >= 0 ==>
            ParseHeader(env, ahead, defaultTTL, last) == Success(Header(IN, defaultTTL, env.typeValue(a), false, 1)))
  {
  }

  /**
   * The TTL of a line that has none: the $TTL default, else the previous record's TTL; with
   * neither, "missing TTL" unless the type is SOA, which gets 0 and waits for its minimum.
   */
  lemma HeaderImpliedTtl(env: Env, a: string, rest: seq<Token>, defaultTTL: int, last: Option<Record>)
    requires env.classValue(a) < 0 && env.parseTtl(a).None? && env.typeValue(a) >= 0
    ensures var r := ParseHeader(env, [Ident(a)] + rest, defaultTTL, last);
      && (defaultTTL >= 0 ==> r == Success(Header(IN, defaultTTL, env.typeValue(a), false, 1)))
      && (defaultTTL < 0 && last.Some? && last.value.ttl >= 0 ==> r == Success(Header(IN, last.value.ttl, env.typeValue(a), false, 1)))
      && (defaultTTL < 0 && last.None? && env.typeValue(a) != SOA ==> r == Failure(MissingTtl))
      && (defaultTTL < 0 && last.None? && env.typeValue(a) == SOA ==> r == Success(Header(IN, 0, SOA, true, 1)))
  {
  }

  /** An unknown type is rejected, naming the word. */
  lemma HeaderUnknownType(env: Env, a: string, rest: seq<Token>, defaultTTL: int, last: Option<Record>)
    requires env.classValue(a) < 0 && env.parseTtl(a).None? && env.typeValue(a) < 0
    ensures ParseHeader(env, [Ident(a)] + rest, defaultTTL, last) == Failure(InvalidType(a))
  {
  }

  // ---------------------------------------------------------------------------------------------
  // The rest of a record line

  /** The words before the end of the line, and how many tokens reading them and the end takes. */
  function LineFields(ahead: seq<Token>): (r: (seq<Token>, nat))
    ensures |r.0| <= |ahead| && r.0 == ahead[..|r.0|]
    ensures forall i :: 0 <= i < |r.0| ==> !r.0[i].Eol? && !r.0[i].Eof?
    ensures r.1 == if |r.0| < |ahead| then |r.0| + 1 else |r.0|
    ensures |r.0| < |ahead| ==> ahead[|r.0|].Eol? || ahead[|r.0|].Eof?
    decreases |ahead|
  {
    if ahead == [] then ([], 0)
    else if ahead[0].Eol? || ahead[0].Eof? then ([], 1)
    else
      var rest := LineFields(ahead[1..]);
      ([ahead[0]] + rest.0, rest.1 + 1)
  }

  /** A record line as parsed: its class/TTL/type, the record, the new default TTL, the tokens taken. */
  datatype Line = Line(header: Header, record: Record, defaultTTL: int, used: nat)

  /**
   * The record part of nextRecordInternal: class/TTL/type, then Record.fromString on the rest of
   * the line. When an SOA TTL is pending, the record's TTL and the default TTL both become the
   * SOA minimum and nothing stays pending; otherwise the default TTL is unchanged.
   */
  function RecordLine(env: Env, ahead: seq<Token>, name: Name, origin: Option<Name>,
                      defaultTTL: int, last: Option<Record>, needSoaTtl: bool): (r: Result<Line, MasterError>)
    ensures r.Success? ==> r.value.used <= |ahead| && r.value.used >= r.value.header.used
    ensures r.Success? && (needSoaTtl || r.value.header.needSoaTtl) ==>
              r.value.record.ttl == r.value.defaultTTL
    ensures r.Success? && !(needSoaTtl || r.value.header.needSoaTtl) ==> r.value.defaultTTL == defaultTTL
  {
    match ParseHeader(env, ahead, defaultTTL, last)
    case Failure(e) => Failure(e)
    case Success(h) =>
      var fields := LineFields(ahead[h.used..]);
      match env.makeRecord(name, h.rrType, h.dclass, h.ttl, fields.0, origin)
      case Failure(msg) => Failure(BadRecord(msg))
      case Success(rec) =>
        if needSoaTtl || h.needSoaTtl then
          match env.soaMinimum(rec)
          case None => Failure(ClassCast)
          case Some(m) => Success(Line(h, rec.(ttl := m), m, h.used + fields.1))
        else Success(Line(h, rec, defaultTTL, h.used + fields.1))
  }

  /**
   * What a record line is built from: the class/TTL/type of ParseHeader, then Record.fromString on
   * the words up to the end of the line. A rejected record is BadRecord; with an SOA TTL pending
   * (from an earlier line or this one) the record takes its SOA minimum as TTL, which also becomes
   * the default TTL, and a record that is not an SOA fails the cast; otherwise the record is kept
   * as built.
   */
  lemma RecordLineBuilds(env: Env, ahead: seq<Token>, name: Name, origin: Option<Name>,
                         defaultTTL: int, last: Option<Record>, needSoaTtl: bool)
    ensures var r := RecordLine(env, ahead, name, origin, defaultTTL, last, needSoaTtl);
      match ParseHeader(env, ahead, defaultTTL, last)
      case Failure(e) => r == Failure(e)
      case Success(h) =>
        match env.makeRecord(name, h.rrType, h.dclass, h.ttl, LineFields(ahead[h.used..]).0, origin)
        case Failure(msg) => r == Failure(BadRecord(msg))
        case Success(rec) =>
          && (r.Success? ==> r.value.header == h)
          && (needSoaTtl || h.needSoaTtl ==>
                && (env.soaMinimum(rec).None? ==> r == Failure(ClassCast))
                && (env.soaMinimum(rec).Some? ==>
                      r.Success? && r.value.record == rec.(ttl := env.soaMinimum(rec).value)
                      && r.value.defaultTTL == env.soaMinimum(rec).value))
          && (!(needSoaTtl || h.needSoaTtl) ==> r.Success? && r.value.record == rec && r.value.defaultTTL == defaultTTL)
  {
  }

  /** A `$GENERATE` line: its spec, its class/TTL/type, and the tokens before its end of line. */
  datatype GenerateLine = GenerateLine(spec: GeneratorSpec, header: Header, used: nat)

  /**
   * startGenerate on the words ahead: range, name pattern, class/TTL/type (of a type Generator
   * supports), data pattern, and then the end of the line, which is left unread.
   */
  function ParseGenerate(env: Env, ahead: seq<Token>, defaultTTL: int, last: Option<Record>, origin: Option<Name>)
    : (r: Result<GenerateLine, MasterError>)
    ensures r.Success? ==>
              r.value.used <= |ahead| && (r.value.used < |ahead| ==> ahead[r.value.used].Eol? || ahead[r.value.used].Eof?)
  {
    if !(0 < |ahead| && ahead[0].Ident?) then Failure(TokenFailure(Expected("an identifier")))
    else
      match ParseRange(ahead[0].value)
      case Failure(e) => Failure(e)
      case Success(rg) =>
        if !(1 < |ahead| && ahead[1].Ident?) then Failure(TokenFailure(Expected("an identifier")))
        else GenerateTail(env, ahead, rg, defaultTTL, last, origin)
  }

  /** startGenerate after the range and the name pattern: class/TTL/type, data pattern, end of line. */
  function GenerateTail(env: Env, ahead: seq<Token>, rg: Range, defaultTTL: int, last: Option<Record>, origin: Option<Name>)
    : (r: Result<GenerateLine, MasterError>)
    requires 1 < |ahead| && ahead[1].Ident?
    ensures r.Success? ==>
              r.value.used <= |ahead| && (r.value.used < |ahead| ==> ahead[r.value.used].Eol? || ahead[r.value.used].Eof?)
  {
    match ParseHeader(env, ahead[2..], defaultTTL, last)
    case Failure(e) => Failure(e)
    case Success(h) =>
      var k := 2 + h.used;
      if !env.supportedType(h.rrType) then Failure(GenerateUnsupported(h.rrType))
      else if !(k < |ahead| && ahead[k].Ident?) then Failure(TokenFailure(Expected("an identifier")))
      else if k + 1 < |ahead| && !ahead[k + 1].Eol? && !ahead[k + 1].Eof? then Failure(TokenFailure(Expected("EOL or EOF")))
      else
        Success(GenerateLine(
          GeneratorSpec(rg.start, rg.end, rg.step, ahead[1].value, h.rrType, h.dclass, h.ttl, ahead[k].value, origin),
          h, k + 1))
  }

  /**
   * A `$GENERATE` line that is accepted has a valid range, a type Generator supports, the class
   * and TTL of its header, and the origin in force.
   */
  lemma GenerateSpecValid(env: Env, ahead: seq<Token>, defaultTTL: int, last: Option<Record>, origin: Option<Name>)
    requires ParseGenerate(env, ahead, defaultTTL, last, origin).Success?
    ensures var g := ParseGenerate(env, ahead, defaultTTL, last, origin).value;
      && 0 <= g.spec.start <= g.spec.end <= UINT32_MAX && 1 <= g.spec.step <= UINT32_MAX
      && env.supportedType(g.spec.rrType) && g.spec.origin == origin
      && g.spec.rrType == g.header.rrType && g.spec.dclass == g.header.dclass && g.spec.ttl == g.header.ttl
      && ParseRange(ahead[0].value) == Success(Range(g.spec.start, g.spec.end, g.spec.step))
  {
    var rg := ParseRange(ahead[0].value).value;
    GenerateTailSpec(env, ahead, rg, defaultTTL, last, origin);
  }

  /** The rest of an accepted `$GENERATE` line carries the range it is given, a supported type and its header. */
  lemma GenerateTailSpec(env: Env, ahead: seq<Token>, rg: Range, defaultTTL: int, last: Option<Record>, origin: Option<Name>)
    requires 1 < |ahead| && ahead[1].Ident?
    requires GenerateTail(env, ahead, rg, defaultTTL, last, origin).Success?
    ensures var g := GenerateTail(env, ahead, rg, defaultTTL, last, origin).value;
      && g.spec.start == rg.start && g.spec.end == rg.end && g.spec.step == rg.step
      && env.supportedType(g.spec.rrType) && g.spec.origin == origin && g.spec.nameSpec == ahead[1].value
      && g.spec.rrType == g.header.rrType && g.spec.dclass == g.header.dclass && g.spec.ttl == g.header.ttl
  {
  }
}
