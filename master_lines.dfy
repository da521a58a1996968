/**
 * What reading a master file does, stated as functions of the reader's state. `LineSpec` and
 * `FirstLine` read the lines as a grammar; `LineEffect` follows one pass of the loop of
 * nextRecordInternal token by token, with every change it makes to the state, `Scan` the loop,
 * and `NextOf` a whole call of nextRecord. The class `Master` is proved against the second set,
 * and the lemmas at the end show that the two readings agree.
 */
module MasterLines {
  import opened Base
  import opened Text
  import opened Records
  import opened Tokens
  import opened MasterParsing

  /** A `$GENERATE` being expanded: its spec and how many records it has been asked for. */
  datatype GenState = GenState(spec: GeneratorSpec, calls: nat)

  /** One pass of the reading loop: go round again, or finish with a record, the end (None) or an error. */
  datatype StepResult = Continue | Done(result: Result<Option<Record>, MasterError>)

  /** Generator.nextRecord for its next call, a failure reported as "Parsing $GENERATE". */
  function Generated(env: Env, g: GenState): (r: Result<Option<Record>, MasterError>)
    ensures r.Failure? <==> env.generated(g.spec, g.calls).Failure?
    ensures r.Failure? ==> r.error == GenerateFailed(env.generated(g.spec, g.calls).error)
    ensures r.Success? ==> r.value == env.generated(g.spec, g.calls).value
  {
    match env.generated(g.spec, g.calls)
    case Failure(msg) => Failure(GenerateFailed(msg))
    case Success(rec) => Success(rec)
  }

  /** A record line's outcome as nextRecordInternal returns it: the record, or the line's error. */
  function LineOutcome(l: Result<Line, MasterError>): (r: Result<Option<Record>, MasterError>)
    ensures r.Failure? <==> l.Failure?
    ensures r.Failure? ==> r.error == l.error
    ensures r.Success? ==> r.value == Some(l.value.record)
  {
    match l
    case Failure(e) => Failure(e)
    case Success(line) => Success(Some(line.record))
  }

  /** What a line of the loop of nextRecordInternal comes to: read on, a directive and the words after it, or an answer. */
  datatype LineStart =
    | BlankLine
    | DirectiveLine(word: string, args: seq<Token>)
    | Answered(result: Result<Option<Record>, MasterError>)

  /** `$ORIGIN` accepts its arguments: an unquoted word that is a name, then the end of the line. */
  predicate OriginArgs(env: Env, a: seq<Token>) {
    |a| > 0 && a[0].Ident? && env.nameFromString(a[0].value, Some(Root)).Success? && (|a| == 1 || a[1].Eol? || a[1].Eof?)
  }

  /** `$TTL` accepts its arguments: an unquoted word that is a TTL, then the end of the line. */
  predicate TtlArgs(env: Env, a: seq<Token>) {
    |a| > 0 && a[0].Ident? && env.parseTtl(a[0].value).Some? && (|a| == 1 || a[1].Eol? || a[1].Eof?)
  }

  /**
   * The loop of nextRecordInternal on the line starting at token pos: the end of input ends the
   * file and an empty line is skipped; a line that starts with whitespace is a record of the
   * previous record's owner ("no owner" when there is none); a word starting with '$' is a
   * directive; any other word is the owner, read relative to the origin.
   */
  function LineSpec(env: Env, toks: seq<Token>, pos: nat, origin: Option<Name>, defaultTTL: int,
                    last: Option<Record>, needSoaTtl: bool): LineStart
    requires pos <= |toks|
  {
    if pos == |toks| || toks[pos].Eof? then Answered(Success(None))
    else if toks[pos].Eol? then BlankLine
    else
      var rest := NonWs(toks[pos + 1..]);
      if toks[pos].Whitespace? then ContinuedLine(env, rest, origin, defaultTTL, last, needSoaTtl)
      else WordLine(env, toks[pos].value, rest, origin, defaultTTL, last, needSoaTtl)
  }

  /**
   * A line that starts with whitespace, followed by the words rest: blank up to its end of
   * line, the end of the file, or a record of the previous record's owner ("no owner" when
   * there is none).
   */
  function ContinuedLine(env: Env, rest: seq<Token>, origin: Option<Name>, defaultTTL: int,
                         last: Option<Record>, needSoaTtl: bool): LineStart
  {
    if rest == [] || rest[0].Eof? then Answered(Success(None))
    else if rest[0].Eol? then BlankLine
    else if last.None? then Answered(Failure(NoOwner))
    else Answered(LineOutcome(RecordLine(env, rest, last.value.name, origin, defaultTTL, last, needSoaTtl)))
  }

  /**
   * A line that starts with the word w, followed by the words rest: an empty word fails as
   * charAt(0) would, a '$' word is a directive, and any other word is the owner of a record.
   */
  function WordLine(env: Env, w: string, rest: seq<Token>, origin: Option<Name>, defaultTTL: int,
                    last: Option<Record>, needSoaTtl: bool): LineStart
  {
    if |w| == 0 then Answered(Failure(IndexOutOfBounds))
    else if w[0] == '$' then DirectiveLine(w, rest)
    else match env.nameFromString(w, origin)
      case Failure(e) => Answered(Failure(BadName(e)))
      case Success(n) => Answered(LineOutcome(RecordLine(env, rest, n, origin, defaultTTL, last, needSoaTtl)))
  }

  /** Where reading resumes after a blank line starting at token pos: just past its end of line. */
  function BlankEnd(toks: seq<Token>, pos: nat): (e: nat)
    requires pos < |toks|
    ensures pos < e <= |toks|
  {
    if !toks[pos].Whitespace? then pos + 1
    else
      var j := Skip(toks, pos + 1, false);
      if j < |toks| then j + 1 else j
  }

  /** The loop of nextRecordInternal passes over blank lines: the first line at or after pos that is not blank. */
  function FirstLine(env: Env, toks: seq<Token>, pos: nat, origin: Option<Name>, defaultTTL: int,
                     last: Option<Record>, needSoaTtl: bool): (r: LineStart)
    requires pos <= |toks|
    ensures !r.BlankLine?
    decreases |toks| - pos
  {
    match LineSpec(env, toks, pos, origin, defaultTTL, last, needSoaTtl)
    case BlankLine => FirstLine(env, toks, BlankEnd(toks, pos), origin, defaultTTL, last, needSoaTtl)
    case line => line
  }

  /** What a reader is opened with and keeps while it reads. */
  datatype Config = Config(env: Env, toks: seq<Token>, file: Option<string>, budget: nat,
                           noExpandGenerate: bool, noExpandIncludes: bool, includeThrowsException: bool)

  /**
   * What reading changes: the token position, whether the tokenizer is closed, the origin, the
   * default TTL, the last record, whether an SOA TTL is pending, and the `$GENERATE` specs seen.
   */
  datatype Cursor = Cursor(pos: nat, closed: bool, origin: Option<Name>, defaultTTL: int,
                           last: Option<Record>, needSoaTtl: bool, generators: seq<GeneratorSpec>)

  /** What reading comes to: the outcome, the new cursor, the generator left open, and whether an included reader is left open. */
  datatype Effect = Effect(o: StepResult, cur: Cursor, generator: Option<GenState>, includeOpen: bool)

  /** A new reader: at the first token, with the origin and default TTL given and nothing read. */
  function Start(origin: Option<Name>, ttl: int): Cursor {
    Cursor(0, false, origin, ttl, None, false, [])
  }

  /** The reader an `$INCLUDE` opens: on the file's tokens, one level less deep, with the default settings. */
  function IncludedConfig(env: Env, toks: seq<Token>, path: string, budget: nat): Config {
    Config(env, toks, Some(path), budget, false, false, false)
  }

  /** A line that fails with e, the state as far as the line had changed it. */
  function Fails(e: MasterError, c: Cursor): Effect {
    Effect(Done(Failure(e)), c, None, false)
  }

  /**
   * What every line's effect keeps: the position moves forward within the tokens, the
   * tokenizer stays as open as it was, `$GENERATE` specs are only appended, and reading on
   * leaves no generator or include open.
   */
  predicate Moves(C: Config, c: Cursor, e: Effect) {
    && c.pos <= e.cur.pos <= |C.toks| && e.cur.closed == c.closed && c.generators <= e.cur.generators
    && (e.o.Continue? ==> e.generator.None? && !e.includeOpen)
  }

  /**
   * The end of the loop of nextRecordInternal for the owner `name`: RecordLine on the words
   * ahead; the record's words are read, it becomes the last record, its default TTL is kept,
   * and no SOA TTL is pending any more.
   */
  function RecordEffect(C: Config, c: Cursor, name: Name): (e: Effect)
    requires c.pos <= |C.toks|
    ensures Moves(C, c, e) && e.o.Done?
  {
    match RecordLine(C.env, AheadAt(C.toks, c.pos), name, c.origin, c.defaultTTL, c.last, c.needSoaTtl)
    case Failure(err) => Fails(err, c)
    case Success(line) =>
      Effect(Done(Success(Some(line.record))),
             c.(pos := PosAfter(C.toks, c.pos, line.used), last := Some(line.record),
                defaultTTL := line.defaultTTL, needSoaTtl := false),
             None, false)
  }

  /**
   * A line that started with whitespace, from just after it: an end of line is read and the
   * loop goes on, an end of input ends the file; otherwise the word is put back and read as a
   * record of the last record's owner ("no owner" when there is none).
   */
  function ContinuedEffect(C: Config, c: Cursor): (e: Effect)
    requires c.pos <= |C.toks|
    ensures Moves(C, c, e) && (e.o.Continue? ==> e.cur.pos > c.pos)
  {
    var (t, p) := ReadAt(C.toks, c.pos);
    if t.Eol? then Effect(Continue, c.(pos := p), None, false)
    else if t.Eof? then Effect(Done(Success(None)), c.(pos := p), None, false)
    else if c.last.None? then Fails(NoOwner, c)
    else RecordEffect(C, c, c.last.value.name)
  }

  /** getEOL at the end of a directive: past the end of the line reading goes on; anything else is "expected EOL or EOF". */
  function LineEnd(C: Config, c: Cursor): (e: Effect)
    requires c.pos <= |C.toks|
    ensures Moves(C, c, e)
  {
    var (t, p) := ReadAt(C.toks, c.pos);
    if t.Eol? || t.Eof? then Effect(Continue, c.(pos := p), None, false)
    else Fails(TokenFailure(Expected("EOL or EOF")), c.(pos := p))
  }

  /** `$ORIGIN`: an unquoted word, made absolute against the root, becomes the origin; then the end of the line. */
  function OriginEffect(C: Config, c: Cursor): (e: Effect)
    requires c.pos <= |C.toks|
    ensures Moves(C, c, e)
  {
    var (t, p) := ReadAt(C.toks, c.pos);
    if !t.Ident? then Fails(TokenFailure(Expected("a name")), c.(pos := p))
    else match C.env.nameFromString(t.value, Some(Root))
      case Failure(err) => Fails(BadName(err), c.(pos := p))
      case Success(n) => LineEnd(C, c.(pos := p, origin := Some(n)))
  }

  /** `$TTL`: an unquoted word that parses as a TTL becomes the default TTL; then the end of the line. */
  function TtlEffect(C: Config, c: Cursor): (e: Effect)
    requires c.pos <= |C.toks|
    ensures Moves(C, c, e)
  {
    var (t, p) := ReadAt(C.toks, c.pos);
    if !t.Ident? || C.env.parseTtl(t.value).None? then Fails(TokenFailure(Expected("a TTL value")), c.(pos := p))
    else LineEnd(C, c.(pos := p, defaultTTL := C.env.parseTtl(t.value).value))
  }

  /** A disabled `$INCLUDE`: refused in strict mode; otherwise its file name and the end of the line are read. */
  function SkipEffect(C: Config, c: Cursor): (e: Effect)
    requires c.pos <= |C.toks|
    ensures Moves(C, c, e)
  {
    if C.includeThrowsException then Fails(IncludeDisabled, c)
    else
      var (t, p) := ReadAt(C.toks, c.pos);
      if !IsString(t) then Fails(TokenFailure(Expected("a string")), c.(pos := p))
      else LineEnd(C, c.(pos := p))
  }

  /**
   * The words of an enabled `$INCLUDE` and where reading stops: a file name, resolved against
   * this file's directory unless absolute (refused for a stream); then, when a string follows,
   * it is the included file's origin and the end of the line must come next; otherwise the
   * current origin is kept and the token read is not put back.
   */
  function Target(C: Config, c: Cursor): (r: (Result<(string, Option<Name>), MasterError>, nat))
    requires c.pos <= |C.toks|
    ensures c.pos <= r.1 <= |C.toks|
  {
    var (t, p) := ReadAt(C.toks, c.pos);
    if !IsString(t) then (Failure(TokenFailure(Expected("a string"))), p)
    else if !C.env.isAbsolutePath(t.value) && C.file.None? then (Failure(RelativeInclude), p)
    else
      var path := if C.env.isAbsolutePath(t.value) then t.value else C.env.resolve(C.file.value, t.value);
      var (w, q) := ReadAt(C.toks, p);
      if !IsString(w) then (Success((path, c.origin)), q)
      else match C.env.nameFromString(w.value, Some(Root))
        case Failure(err) => (Failure(BadName(err)), q)
        case Success(n) =>
          var (u, s) := ReadAt(C.toks, q);
          (if u.Eol? || u.Eof? then Success((path, Some(n))) else Failure(TokenFailure(Expected("EOL or EOF"))), s)
  }

  /** The tokens of an accepted `$GENERATE` line are read, its spec recorded, and its pending SOA TTL noted. */
  function Begun(C: Config, c: Cursor, g: GenerateLine): (d: Cursor)
    requires c.pos <= |C.toks|
    ensures c.pos <= d.pos <= |C.toks| && d.closed == c.closed && c.generators <= d.generators
  {
    c.(pos := PosAfter(C.toks, c.pos, g.used), needSoaTtl := c.needSoaTtl || g.header.needSoaTtl,
       generators := c.generators + [g.spec])
  }

  /**
   * `$GENERATE`: a line that does not parse is the error; otherwise its spec is recorded and,
   * unexpanded, the end of the line is read and reading goes on, or, expanded, the generator is
   * open and its first record (or failure) is the answer.
   */
  function GenerateEffect(C: Config, c: Cursor): (e: Effect)
    requires c.pos <= |C.toks|
    ensures Moves(C, c, e)
  {
    match ParseGenerate(C.env, AheadAt(C.toks, c.pos), c.defaultTTL, c.last, c.origin)
    case Failure(err) => Fails(err, c)
    case Success(g) =>
      if C.noExpandGenerate then LineEnd(C, Begun(C, c, g))
      else
        var r := Generated(C.env, GenState(g.spec, 0));
        Effect(Done(r), Begun(C, c, g), Some(GenState(g.spec, if r.Success? then 1 else 0)), false)
  }

  /**
   * One pass of the loop of nextRecordInternal from c: a closed tokenizer fails; the end of
   * input ends the file; an end of line goes round again; a leading blank is ContinuedEffect;
   * a word is WordEffect.
   */
  function LineEffect(C: Config, c: Cursor): (e: Effect)
    requires c.pos <= |C.toks|
    ensures Moves(C, c, e) && (e.o.Continue? ==> e.cur.pos > c.pos)
    decreases C.budget, 6, 0
  {
    if c.closed then Fails(TokenFailure(StreamClosed), c)
    else if c.pos == |C.toks| then Effect(Done(Success(None)), c, None, false)
    else
      var t := C.toks[c.pos];
      var c1 := c.(pos := c.pos + 1);
      if t.Whitespace? then ContinuedEffect(C, c1)
      else if t.Eol? then Effect(Continue, c1, None, false)
      else if t.Eof? then Effect(Done(Success(None)), c1, None, false)
      else WordEffect(C, c1, t.value)
  }

  /** A line that started with the word w: an empty word fails as charAt(0) would, a '$' word is a directive, any other word the owner. */
  function WordEffect(C: Config, c: Cursor, w: string): (e: Effect)
    requires c.pos <= |C.toks|
    ensures Moves(C, c, e)
    decreases C.budget, 5, 0
  {
    if |w| == 0 then Fails(IndexOutOfBounds, c)
    else if w[0] == '$' then DirectiveEffect(C, c, w)
    else match C.env.nameFromString(w, c.origin)
      case Failure(err) => Fails(BadName(err), c)
      case Success(n) => RecordEffect(C, c, n)
  }

  /** The directive w, matched without regard to case; an unknown one is refused. */
  function DirectiveEffect(C: Config, c: Cursor, w: string): (e: Effect)
    requires c.pos <= |C.toks|
    ensures Moves(C, c, e)
    decreases C.budget, 4, 0
  {
    if EqualsIgnoreCase(w, "$ORIGIN") then OriginEffect(C, c)
    else if EqualsIgnoreCase(w, "$TTL") then TtlEffect(C, c)
    else if EqualsIgnoreCase(w, "$INCLUDE") then IncludeEffect(C, c)
    else if EqualsIgnoreCase(w, "$GENERATE") then GenerateEffect(C, c)
    else Fails(InvalidDirective(w), c)
  }

  /** `$INCLUDE`: skipped or refused when includes are disabled, otherwise IncludeFileEffect. */
  function IncludeEffect(C: Config, c: Cursor): (e: Effect)
    requires c.pos <= |C.toks|
    ensures Moves(C, c, e)
    decreases C.budget, 3, 0
  {
    if C.noExpandIncludes then SkipEffect(C, c) else IncludeFileEffect(C, c)
  }

  /** An enabled `$INCLUDE`: its words (Target), then the file is read (ReadIncludedEffect). */
  function IncludeFileEffect(C: Config, c: Cursor): (e: Effect)
    requires c.pos <= |C.toks|
    ensures Moves(C, c, e)
    decreases C.budget, 2, 0
  {
    var (t, p) := Target(C, c);
    match t
    case Failure(err) => Fails(err, c.(pos := p))
    case Success((path, org)) => ReadIncludedEffect(C, c.(pos := p), path, org)
  }

  /**
   * The included file `path` with origin `org`: too deep, a relative origin and an unopenable
   * file fail; otherwise a reader opened on it with the current default TTL is asked once (the
   * same reading, one level less deep). Its record or error is the answer and it stays open;
   * at its end reading goes on here. This reader's own state does not change.
   */
  function ReadIncludedEffect(C: Config, c: Cursor, path: string, org: Option<Name>): (e: Effect)
    requires c.pos <= |C.toks|
    ensures Moves(C, c, e) && e.cur == c
    decreases C.budget, 1, 0
  {
    if C.budget == 0 then Fails(IncludeTooDeep, c)
    else if org.Some? && !org.value.absolute then Fails(RelativeName(org.value), c)
    else match C.env.open(path)
      case Failure(msg) => Fails(Io(msg), c)
      case Success(toks) =>
        var a := NextOf(IncludedConfig(C.env, toks, path, C.budget - 1), Start(org, c.defaultTTL), None, None).o.result;
        if a.Failure? || a.value.Some? then Effect(Done(a), c, None, true) else Effect(Continue, c, None, false)
  }

  /** The loop of nextRecordInternal from c: lines are read until one gives an answer. */
  function Scan(C: Config, c: Cursor): (e: Effect)
    requires c.pos <= |C.toks|
    ensures e.o.Done? && c.pos <= e.cur.pos <= |C.toks| && e.cur.closed == c.closed && c.generators <= e.cur.generators
    decreases C.budget, 7, |C.toks| - c.pos
  {
    var e := LineEffect(C, c);
    if e.o.Continue? then Scan(C, e.cur) else e
  }

  /**
   * nextRecordInternal from c with the generator gen open and inc the answer the open include
   * (if any) gave: its record or error is the answer and it stays open; then the generator's
   * record or error, the generator moving on; when it has no more, the end of its line is read
   * and it is closed; then the loop.
   */
  function InternalOf(C: Config, c: Cursor, gen: Option<GenState>, inc: Option<Result<Option<Record>, MasterError>>): (e: Effect)
    requires c.pos <= |C.toks| && !(inc.Some? && gen.Some?)
    ensures e.o.Done? && c.pos <= e.cur.pos <= |C.toks| && e.cur.closed == c.closed && c.generators <= e.cur.generators
    decreases C.budget, 8, 0
  {
    if inc.Some? && (inc.value.Failure? || inc.value.value.Some?) then Effect(Done(inc.value), c, None, true)
    else if gen.Some? then
      var r := Generated(C.env, gen.value);
      if r.Failure? then Effect(Done(r), c, gen, false)
      else
        var moved := Some(gen.value.(calls := gen.value.calls + 1));
        if r.value.Some? then Effect(Done(r), c, moved, false)
        else if c.closed then Effect(Done(Failure(TokenFailure(StreamClosed))), c, moved, false)
        else
          var end := LineEnd(C, c);
          if end.o.Continue? then Scan(C, end.cur) else end.(generator := moved)
    else Scan(C, c)
  }

  /** nextRecord: nextRecordInternal, and the tokenizer is closed when the answer is an error or the end. */
  function NextOf(C: Config, c: Cursor, gen: Option<GenState>, inc: Option<Result<Option<Record>, MasterError>>): (e: Effect)
    requires c.pos <= |C.toks| && !(inc.Some? && gen.Some?)
    ensures e.o.Done? && c.pos <= e.cur.pos <= |C.toks| && c.generators <= e.cur.generators
    ensures e.cur.closed <==> c.closed || e.o.result.Failure? || e.o.result.value.None?
    decreases C.budget, 9, 0
  {
    var e := InternalOf(C, c, gen, inc);
    if e.o.result.Failure? || e.o.result.value.None? then e.(cur := e.cur.(closed := true)) else e
  }

  /** A blank line starts at pos: an end of line, or whitespace up to an end of line. */
  predicate BlankAt(toks: seq<Token>, pos: nat)
    requires pos < |toks|
  {
    toks[pos].Eol? || (toks[pos].Whitespace? && AheadAt(toks, pos + 1) != [] && AheadAt(toks, pos + 1)[0].Eol?)
  }

  /** Where the first line at or after pos that is not blank starts. */
  function FirstPos(toks: seq<Token>, pos: nat): (q: nat)
    requires pos <= |toks|
    ensures pos <= q <= |toks| && (q < |toks| ==> !BlankAt(toks, q))
    decreases |toks| - pos
  {
    if pos < |toks| && BlankAt(toks, pos) then FirstPos(toks, BlankEnd(toks, pos)) else pos
  }

  /**
   * One pass of the loop agrees with the grammar: a blank line is passed over to just after its
   * end of line with nothing else changed, an answer is the same answer, and a directive line
   * goes on with the directive from just after its word, the words ahead being the directive's.
   */
  lemma LineEffectMeetsLineSpec(C: Config, c: Cursor)
    requires c.pos <= |C.toks| && !c.closed
    ensures LineSpec(C.env, C.toks, c.pos, c.origin, c.defaultTTL, c.last, c.needSoaTtl).BlankLine?
            <==> c.pos < |C.toks| && BlankAt(C.toks, c.pos)
    ensures match LineSpec(C.env, C.toks, c.pos, c.origin, c.defaultTTL, c.last, c.needSoaTtl)
            case BlankLine => LineEffect(C, c) == Effect(Continue, c.(pos := BlankEnd(C.toks, c.pos)), None, false)
            case Answered(r) => LineEffect(C, c).o == Done(r)
            case DirectiveLine(w, a) =>
              && c.pos < |C.toks| && a == AheadAt(C.toks, c.pos + 1)
              && LineEffect(C, c) == DirectiveEffect(C, c.(pos := c.pos + 1), w)
  {
    if c.pos < |C.toks| && C.toks[c.pos].Whitespace? {
      ContinuedMeetsLine(C, c);
    } else if c.pos < |C.toks| && !C.toks[c.pos].Eol? && !C.toks[c.pos].Eof? {
      WordMeetsLine(C, c);
    }
  }

  /** LineEffectMeetsLineSpec for a line that starts with whitespace. */
  lemma ContinuedMeetsLine(C: Config, c: Cursor)
    requires c.pos < |C.toks| && !c.closed && C.toks[c.pos].Whitespace?
    ensures LineSpec(C.env, C.toks, c.pos, c.origin, c.defaultTTL, c.last, c.needSoaTtl).BlankLine?
            <==> c.pos < |C.toks| && BlankAt(C.toks, c.pos)
    ensures match LineSpec(C.env, C.toks, c.pos, c.origin, c.defaultTTL, c.last, c.needSoaTtl)
            case BlankLine => LineEffect(C, c) == Effect(Continue, c.(pos := BlankEnd(C.toks, c.pos)), None, false)
            case Answered(r) => LineEffect(C, c).o == Done(r)
            case DirectiveLine(w, a) =>
              && c.pos < |C.toks| && a == AheadAt(C.toks, c.pos + 1)
              && LineEffect(C, c) == DirectiveEffect(C, c.(pos := c.pos + 1), w)
  {
    var c1 := c.(pos := c.pos + 1);
    ContinuedEffectMeetsLine(C, c1);
    assert LineEffect(C, c) == ContinuedEffect(C, c1);
    assert LineSpec(C.env, C.toks, c.pos, c.origin, c.defaultTTL, c.last, c.needSoaTtl)
        == ContinuedLine(C.env, AheadAt(C.toks, c1.pos), c.origin, c.defaultTTL, c.last, c.needSoaTtl);
  }

  /** After a leading blank, ContinuedEffect does what ContinuedLine says. */
  lemma ContinuedEffectMeetsLine(C: Config, c: Cursor)
    requires 0 < c.pos <= |C.toks| && C.toks[c.pos - 1].Whitespace?
    ensures var l := ContinuedLine(C.env, AheadAt(C.toks, c.pos), c.origin, c.defaultTTL, c.last, c.needSoaTtl);
            && (l.BlankLine? <==> BlankAt(C.toks, c.pos - 1))
            && (l.BlankLine? ==> ContinuedEffect(C, c) == Effect(Continue, c.(pos := BlankEnd(C.toks, c.pos - 1)), None, false))
            && (l.Answered? ==> ContinuedEffect(C, c).o == Done(l.result))
            && !l.DirectiveLine?
  {
    var rest := AheadAt(C.toks, c.pos);
    ReadAtAhead(C.toks, c.pos);
    if rest == [] || rest[0].Eof? {
      assert ReadAt(C.toks, c.pos).0.Eof?;
    } else if rest[0].Eol? {
      assert ReadAt(C.toks, c.pos) == (Eol, BlankEnd(C.toks, c.pos - 1));
    } else if c.last.Some? {
      assert ContinuedEffect(C, c) == RecordEffect(C, c, c.last.value.name);
    }
  }

  /** LineEffectMeetsLineSpec for a line that starts with a word. */
  lemma WordMeetsLine(C: Config, c: Cursor)
    requires c.pos < |C.toks| && !c.closed && !C.toks[c.pos].Whitespace? && !C.toks[c.pos].Eol? && !C.toks[c.pos].Eof?
    ensures !LineSpec(C.env, C.toks, c.pos, c.origin, c.defaultTTL, c.last, c.needSoaTtl).BlankLine?
    ensures match LineSpec(C.env, C.toks, c.pos, c.origin, c.defaultTTL, c.last, c.needSoaTtl)
            case BlankLine => false
            case Answered(r) => LineEffect(C, c).o == Done(r)
            case DirectiveLine(w, a) =>
              && c.pos < |C.toks| && a == AheadAt(C.toks, c.pos + 1)
              && LineEffect(C, c) == DirectiveEffect(C, c.(pos := c.pos + 1), w)
  {
    assert LineEffect(C, c) == WordEffect(C, c.(pos := c.pos + 1), C.toks[c.pos].value);
  }

  /**
   * The loop passes over blank lines: from c it does what it does from the first line that is
   * not blank, and that is the line the grammar's FirstLine reads.
   */
  lemma {:induction false} ScanSkipsBlankLines(C: Config, c: Cursor)
    requires c.pos <= |C.toks| && !c.closed
    ensures FirstLine(C.env, C.toks, c.pos, c.origin, c.defaultTTL, c.last, c.needSoaTtl)
            == LineSpec(C.env, C.toks, FirstPos(C.toks, c.pos), c.origin, c.defaultTTL, c.last, c.needSoaTtl)
    ensures Scan(C, c) == Scan(C, c.(pos := FirstPos(C.toks, c.pos)))
    decreases |C.toks| - c.pos
  {
    LineEffectMeetsLineSpec(C, c);
    if c.pos < |C.toks| && BlankAt(C.toks, c.pos) {
      ScanSkipsBlankLines(C, c.(pos := BlankEnd(C.toks, c.pos)));
    }
  }

  /**
   * The loop meets the grammar at the line at q: when the line is an answer, the loop gives it;
   * when it is a directive, the loop goes on as the directive says, and from where the directive
   * leaves the state when it goes on. With ScanSkipsBlankLines this holds for FirstLine.
   */
  lemma ScanMeetsLineSpec(C: Config, c: Cursor, q: nat)
    requires q <= |C.toks| && !c.closed
    ensures var l := LineSpec(C.env, C.toks, q, c.origin, c.defaultTTL, c.last, c.needSoaTtl);
            l.Answered? ==> Scan(C, c.(pos := q)).o == Done(l.result)
    ensures var l := LineSpec(C.env, C.toks, q, c.origin, c.defaultTTL, c.last, c.needSoaTtl);
            l.DirectiveLine? ==>
              && q < |C.toks| && l.args == AheadAt(C.toks, q + 1)
              && var d := DirectiveEffect(C, c.(pos := q + 1), l.word);
                 Scan(C, c.(pos := q)) == (if d.o.Continue? then Scan(C, d.cur) else d)
  {
    var b := c.(pos := q);
    LineEffectMeetsLineSpec(C, b);
    assert b.(pos := q + 1) == c.(pos := q + 1);
    var e := LineEffect(C, b);
    assert Scan(C, b) == if e.o.Continue? then Scan(C, e.cur) else e;
  }

  /**
   * A new reader's first nextRecord: with no generator and no include open, when its first line
   * that is not blank is a record, an error or the end, that is the answer.
   */
  lemma FirstAnswer(C: Config, org: Option<Name>, ttl: int)
    ensures var f := FirstLine(C.env, C.toks, 0, org, ttl, None, false);
            f.Answered? ==> NextOf(C, Start(org, ttl), None, None).o == Done(f.result)
  {
    ScanSkipsBlankLines(C, Start(org, ttl));
    ScanMeetsLineSpec(C, Start(org, ttl), FirstPos(C.toks, 0));
  }

  /** A record line reads exactly the record's words. */
  lemma RecordEffectReads(C: Config, c: Cursor, name: Name)
    requires c.pos <= |C.toks|
    ensures var l := RecordLine(C.env, AheadAt(C.toks, c.pos), name, c.origin, c.defaultTTL, c.last, c.needSoaTtl);
            var e := RecordEffect(C, c, name);
            && e.o == Done(LineOutcome(l))
            && (l.Success? ==> AheadAt(C.toks, e.cur.pos) == AheadAt(C.toks, c.pos)[l.value.used..])
            && (l.Failure? ==> e.cur == c)
  {
    var l := RecordLine(C.env, AheadAt(C.toks, c.pos), name, c.origin, c.defaultTTL, c.last, c.needSoaTtl);
    if l.Success? {
      AheadAfter(C.toks, c.pos, l.value.used);
    }
  }

  /**
   * `$ORIGIN` goes on exactly when its words are a name and the end of the line (OriginArgs);
   * it changes only the position and the origin, and when it goes on the origin is that name
   * and two words are read.
   */
  lemma OriginEffectMeaning(C: Config, c: Cursor)
    requires c.pos <= |C.toks|
    ensures var a := AheadAt(C.toks, c.pos);
            var e := OriginEffect(C, c);
            && (e.o.Continue? <==> OriginArgs(C.env, a))
            && (e.o.Done? ==> e.o.result.Failure?)
            && e.cur == c.(pos := e.cur.pos, origin := e.cur.origin)
            && (e.o.Continue? ==>
                  e.cur == c.(pos := PosAfter(C.toks, c.pos, 2), origin := Some(C.env.nameFromString(a[0].value, Some(Root)).value)))
  {
    TwoReads(C.toks, c.pos);
  }

  /**
   * `$TTL` goes on exactly when its words are a TTL and the end of the line (TtlArgs); it
   * changes only the position and the default TTL, and when it goes on the default TTL is the
   * one parsed and two words are read.
   */
  lemma TtlEffectMeaning(C: Config, c: Cursor)
    requires c.pos <= |C.toks|
    ensures var a := AheadAt(C.toks, c.pos);
            var e := TtlEffect(C, c);
            && (e.o.Continue? <==> TtlArgs(C.env, a))
            && (e.o.Done? ==> e.o.result.Failure?)
            && e.cur == c.(pos := e.cur.pos, defaultTTL := e.cur.defaultTTL)
            && (e.o.Continue? ==>
                  e.cur == c.(pos := PosAfter(C.toks, c.pos, 2), defaultTTL := C.env.parseTtl(a[0].value).value))
  {
    TwoReads(C.toks, c.pos);
  }

  /**
   * A disabled `$INCLUDE` goes on exactly when it is not strict and its words are a string and
   * the end of the line, which are then read; it changes nothing but the position.
   */
  lemma SkipEffectMeaning(C: Config, c: Cursor)
    requires c.pos <= |C.toks|
    ensures var a := AheadAt(C.toks, c.pos);
            var e := SkipEffect(C, c);
            && (e.o.Continue? <==> !C.includeThrowsException && |a| > 0 && IsString(a[0]) && (|a| == 1 || a[1].Eol? || a[1].Eof?))
            && (e.o.Done? ==> e.o.result.Failure?)
            && e.cur == c.(pos := e.cur.pos)
            && (e.o.Continue? ==> e.cur.pos == PosAfter(C.toks, c.pos, 2))
  {
    TwoReads(C.toks, c.pos);
  }

  /**
   * The words of an enabled `$INCLUDE` are accepted exactly when the first is a string, that
   * string is an absolute path or there is a file to resolve it against, and a second string,
   * if any, is a name followed by the end of the line. The path is then the first word,
   * resolved unless absolute; the origin is the second word's name, else the current origin.
   */
  lemma TargetMeaning(C: Config, c: Cursor)
    requires c.pos <= |C.toks|
    ensures var a := AheadAt(C.toks, c.pos);
            var t := Target(C, c);
            && (t.0.Success? <==>
                  && |a| > 0 && IsString(a[0]) && (C.env.isAbsolutePath(a[0].value) || C.file.Some?)
                  && (|a| > 1 && IsString(a[1]) ==>
                        C.env.nameFromString(a[1].value, Some(Root)).Success? && (|a| == 2 || a[2].Eol? || a[2].Eof?)))
            && (t.0.Success? ==>
                  && t.0.value.0 == (if C.env.isAbsolutePath(a[0].value) then a[0].value else C.env.resolve(C.file.value, a[0].value))
                  && t.0.value.1 == (if |a| > 1 && IsString(a[1]) then Some(C.env.nameFromString(a[1].value, Some(Root)).value) else c.origin)
                  && t.1 == PosAfter(C.toks, c.pos, if |a| > 1 && IsString(a[1]) then 3 else 2))
  {
    var p2 := ReadAt(C.toks, ReadAt(C.toks, c.pos).1).1;
    TwoReads(C.toks, c.pos);
    ReadAtAhead(C.toks, p2);
  }

  /**
   * `$GENERATE`: a line that does not parse fails with nothing changed; otherwise its spec is
   * appended to the specs seen and its pending SOA TTL noted, nothing else of the state changes,
   * and the line's words are read; expanded, the answer is the generator's first record and the
   * generator stays open; unexpanded, no generator is open.
   */
  lemma GenerateEffectMeaning(C: Config, c: Cursor)
    requires c.pos <= |C.toks|
    ensures var g := ParseGenerate(C.env, AheadAt(C.toks, c.pos), c.defaultTTL, c.last, c.origin);
            var e := GenerateEffect(C, c);
            && (g.Failure? ==> e == Fails(g.error, c))
            && (g.Success? ==>
                  && e.cur.generators == c.generators + [g.value.spec]
                  && e.cur.origin == c.origin && e.cur.defaultTTL == c.defaultTTL && e.cur.last == c.last
                  && e.cur.needSoaTtl == (c.needSoaTtl || g.value.header.needSoaTtl)
                  && AheadAt(C.toks, PosAfter(C.toks, c.pos, g.value.used)) == AheadAt(C.toks, c.pos)[g.value.used..]
                  && (C.noExpandGenerate ==> e.generator.None?)
                  && (!C.noExpandGenerate ==>
                        && e.o == Done(Generated(C.env, GenState(g.value.spec, 0)))
                        && e.cur.pos == PosAfter(C.toks, c.pos, g.value.used)
                        && e.generator.Some? && e.generator.value.spec == g.value.spec))
  {
    var g := ParseGenerate(C.env, AheadAt(C.toks, c.pos), c.defaultTTL, c.last, c.origin);
    if g.Success? {
      AheadAfter(C.toks, c.pos, g.value.used);
    }
  }
}
