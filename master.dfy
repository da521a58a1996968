/**
 * The master-file reader: it returns one record at a time, applying `$ORIGIN`, `$TTL`,
 * `$INCLUDE` and `$GENERATE` directives as it meets them. An included file is read by a
 * reader of its own until it runs out; a `$GENERATE` line is expanded record by record.
 * Each method is proved against the function of MasterLines that says what it answers and
 * what the reader's state becomes.
 */
module Masters {
  import opened Base
  import opened Text
  import opened Records
  import opened Tokens
  import opened MasterParsing
  import opened MasterLines

  class Master {
    const st: Tokenizer
    const env: Env
    /** How deep includes may still nest below this reader. */
    const budget: nat
    /** The file being read; None when reading a stream. */
    const file: Option<string>
    var origin: Option<Name>
    var last: Option<Record>
    var defaultTTL: int
    var included: Master?
    var currentType: int
    var currentDClass: int
    var currentTTL: int
    var needSOATTL: bool
    var generator: Option<GenState>
    var generators: seq<GeneratorSpec>
    var noExpandGenerate: bool
    var noExpandIncludes: bool
    var includeThrowsException: bool
    /** What the last call of nextRecord answered, and how many calls have answered. */
    ghost var lastAnswer: Result<Option<Record>, MasterError>
    ghost var calls: nat
    /** The reader most recently opened for an `$INCLUDE` of this file. */
    ghost var child: Master?
    ghost var Repr: set<object>

    /** This reader owns its tokenizer and its chain of included readers, and never has both an include and a generator open. */
    ghost predicate Valid()
      reads this, Repr
      decreases Repr
    {
      && this in Repr && st in Repr && st.Valid()
      && (included != null ==>
            && included in Repr && included.Repr <= Repr
            && this !in included.Repr && st !in included.Repr
            && included.budget < budget
            && included.Valid())
      && !(included != null && generator.Some?)
    }

    /** What this reader was opened with and keeps. */
    ghost function Conf(): Config
      reads this
    {
      Config(env, st.toks, file, budget, noExpandGenerate, noExpandIncludes, includeThrowsException)
    }

    /** The state reading changes. */
    ghost function Cur(): Cursor
      reads this, st
    {
      Cursor(st.pos, st.closed, origin, defaultTTL, last, needSOATTL, generators)
    }

    /** The outcome o, with the state as it is now, is the effect e. */
    ghost predicate Made(o: StepResult, e: Effect)
      reads this, st
    {
      e == Effect(o, Cur(), generator, included != null)
    }

    /** What the include m (if any) answered the call just made of it. */
    static ghost function IncludeAnswer(m: Master?): Option<Result<Option<Record>, MasterError>>
      reads m
    {
      if m == null then None else Some(m.lastAnswer)
    }

    /** The reader m was opened with C at the start, with origin org and default TTL ttl, and asked once: its answer and state are NextOf's. */
    static ghost predicate ReadOnce(m: Master, C: Config, org: Option<Name>, ttl: int)
      reads m, m.st
    {
      && m.Conf() == C && m.calls == 1
      && NextOf(C, Start(org, ttl), None, None) == Effect(Done(m.lastAnswer), m.Cur(), m.generator, m.included != null)
    }

    constructor Init(toks: seq<Token>, file: Option<string>, origin: Option<Name>, ttl: int, env: Env, budget: nat)
      ensures Valid() && fresh(Repr) && fresh(st)
      ensures Conf() == Config(env, toks, file, budget, false, false, false) && Cur() == Start(origin, ttl)
      ensures included == null && generator.None? && calls == 0 && child == null
    {
      st := new Tokenizer(toks);
      this.file := file;
      this.origin := origin;
      defaultTTL := ttl;
      this.env := env;
      this.budget := budget;
      last := None;
      included := null;
      currentType := 0;
      currentDClass := 0;
      currentTTL := 0;
      needSOATTL := false;
      generator := None;
      generators := [];
      noExpandGenerate := false;
      noExpandIncludes := false;
      includeThrowsException := false;
      lastAnswer := Success(None);
      calls := 0;
      child := null;
      new;
      Repr := {this, st};
    }

    /** Master(InputStream, origin, ttl): a relative origin is refused. */
    static method OpenStream(toks: seq<Token>, origin: Option<Name>, ttl: int, env: Env, budget: nat)
      returns (r: Result<Master, MasterError>)
      ensures r.Failure? <==> origin.Some? && !origin.value.absolute
      ensures r.Failure? ==> r.error == RelativeName(origin.value)
      ensures r.Success? ==>
                && fresh(r.value.Repr) && r.value.Valid()
                && r.value.Conf() == Config(env, toks, None, budget, false, false, false)
                && r.value.Cur() == Start(origin, ttl)
                && r.value.included == null && r.value.generator.None? && r.value.calls == 0
    {
      if origin.Some? && !origin.value.absolute {
        return Failure(RelativeName(origin.value));
      }
      var m := new Master.Init(toks, None, origin, ttl, env, budget);
      return Success(m);
    }

    /** Master(File, origin, ttl): a relative origin is refused, then the file is opened. */
    static method OpenFile(path: string, origin: Option<Name>, ttl: int, env: Env, budget: nat)
      returns (r: Result<Master, MasterError>)
      ensures origin.Some? && !origin.value.absolute ==> r == Failure(RelativeName(origin.value))
      ensures !(origin.Some? && !origin.value.absolute) && env.open(path).Failure? ==> r == Failure(Io(env.open(path).error))
      ensures !(origin.Some? && !origin.value.absolute) && env.open(path).Success? ==>
                && r.Success? && fresh(r.value.Repr) && r.value.Valid()
                && r.value.Conf() == IncludedConfig(env, env.open(path).value, path, budget)
                && r.value.Cur() == Start(origin, ttl)
                && r.value.included == null && r.value.generator.None? && r.value.calls == 0
    {
      if origin.Some? && !origin.value.absolute {
        return Failure(RelativeName(origin.value));
      }
      var toks := env.open(path);
      if toks.Failure? {
        return Failure(Io(toks.error));
      }
      var m := new Master.Init(toks.value, Some(path), origin, ttl, env, budget);
      return Success(m);
    }

    /**
     * nextRecord: the next record, None at the end of input; the tokenizer is closed once the end
     * or an error is reached. The answer and the new state are NextOf's.
     */
    method NextRecord() returns (r: Result<Option<Record>, MasterError>)
      requires Valid()
      modifies Repr
      ensures Valid() && fresh(Repr - old(Repr)) && Conf() == old(Conf())
      ensures Made(Done(r), NextOf(Conf(), old(Cur()), old(generator), IncludeAnswer(old(included))))
      ensures lastAnswer == r && calls == old(calls) + 1
      ensures old(included) != null ==> old(included).calls == old(included.calls) + 1
      ensures included != null && included != old(included) ==> fresh(included) && included.calls == 1 && r == included.lastAnswer
      decreases budget, 9
    {
      ghost var answered := calls;
      r := NextRecordInternal();
      lastAnswer := r;
      calls := answered + 1;
      if r.Failure? || r.value.None? {
        st.Close();
      }
    }

    /**
     * nextRecordInternal: first the open include, then the open $GENERATE, then the lines of
     * this file until one yields a record, the end or an error.
     */
    method NextRecordInternal() returns (r: Result<Option<Record>, MasterError>)
      requires Valid()
      modifies Repr
      ensures Valid() && fresh(Repr - old(Repr)) && Conf() == old(Conf())
      ensures Made(Done(r), InternalOf(Conf(), old(Cur()), old(generator), IncludeAnswer(old(included))))
      ensures old(included) != null ==> old(included).calls == old(included.calls) + 1
      ensures included != null && included != old(included) ==> fresh(included) && included.calls == 1 && r == included.lastAnswer
      decreases budget, 8
    {
      if included != null {
        var rec := AskIncluded();
        if rec.Failure? || rec.value.Some? {
          return rec;
        }
      }
      if generator.Some? {
        var rec, goOn := AskGenerator();
        if !goOn {
          return rec;
        }
      }
      r := ReadLines();
    }

    /** The open include is asked for its next record; at its end it is dropped. */
    method AskIncluded() returns (r: Result<Option<Record>, MasterError>)
      requires Valid() && included != null
      modifies this`included, this`Repr, included.Repr
      ensures Valid() && fresh(Repr - old(Repr)) && Cur() == old(Cur()) && generator == old(generator)
      ensures r == old(included).lastAnswer && old(included).calls == old(included.calls) + 1
      ensures included == (if r.Failure? || r.value.Some? then old(included) else null)
      decreases budget, 0
    {
      r := included.NextRecord();
      Repr := Repr + included.Repr;
      if r.Failure? || r.value.Some? {
        return;
      }
      included := null;
      Repr := {this, st};
    }

    /**
     * The open generator is asked for its next record; when it has no more, the end of its line
     * is read and it is closed, and reading goes on (goOn) exactly as the loop would from here.
     */
    method AskGenerator() returns (r: Result<Option<Record>, MasterError>, goOn: bool)
      requires Valid() && included == null && generator.Some?
      modifies this`generator, st`pos, st`prevPos
      ensures Valid()
      ensures goOn ==> generator.None? && InternalOf(Conf(), old(Cur()), old(generator), None) == Scan(Conf(), Cur())
      ensures !goOn ==> Made(Done(r), InternalOf(Conf(), old(Cur()), old(generator), None))
    {
      r := NextGenerated();
      if r.Failure? || r.value.Some? {
        return r, false;
      }
      var e := EndGenerate();
      if e.Fail? {
        return Failure(e.error), false;
      }
      goOn := true;
    }

    /** The loop of nextRecordInternal: lines are read until one yields a record, the end or an error. */
    method ReadLines() returns (r: Result<Option<Record>, MasterError>)
      requires Valid() && included == null && generator.None?
      modifies this`origin, this`defaultTTL, this`last, this`needSOATTL, this`currentType, this`currentDClass, this`currentTTL
      modifies this`generator, this`generators, this`included, this`Repr, this`child, st`pos, st`prevPos
      ensures Valid() && fresh(Repr - old(Repr))
      ensures Made(Done(r), Scan(Conf(), old(Cur())))
      ensures included != null ==> fresh(included) && included.calls == 1 && r == included.lastAnswer
      decreases budget, 7
    {
      ghost var target := Scan(Conf(), Cur());
      var step := Continue;
      while step.Continue?
        invariant Valid() && fresh(Repr - old(Repr))
        invariant step.Continue? ==> included == null && generator.None? && Scan(Conf(), Cur()) == target
        invariant step.Done? ==> Made(step, target)
        invariant included != null ==> fresh(included) && included.calls == 1 && step == Done(included.lastAnswer)
        decreases if step.Continue? then 1 else 0, |st.toks| - st.pos
      {
        step := Step();
      }
      r := step.result;
    }

    /**
     * One pass of the loop of nextRecordInternal: a blank line goes round again; a line starting
     * with whitespace belongs to the previous owner; a word starting with '$' is a directive;
     * any other word is an owner name, relative to the origin.
     */
    method Step() returns (o: StepResult)
      requires Valid() && included == null && generator.None?
      modifies this`origin, this`defaultTTL, this`last, this`needSOATTL, this`currentType, this`currentDClass, this`currentTTL
      modifies this`generator, this`generators, this`included, this`Repr, this`child, st`pos, st`prevPos
      ensures Valid() && fresh(Repr - old(Repr))
      ensures Made(o, LineEffect(Conf(), old(Cur())))
      ensures included != null ==> fresh(included) && included.calls == 1 && o == Done(included.lastAnswer)
      decreases budget, 6
    {
      var t := st.Get(true);
      if t.Failure? {
        return Done(Failure(TokenFailure(t.error)));
      }
      var tok := t.value;
      if tok.Whitespace? {
        o := ContinuedStep();
      } else if tok.Eol? {
        return Continue;
      } else if tok.Eof? {
        return Done(Success(None));
      } else {
        o := WordStep(tok.value);
      }
    }

    /** A line that starts with whitespace, once that is read: blank, the end, or a record of the previous owner. */
    method ContinuedStep() returns (o: StepResult)
      requires Valid() && included == null && generator.None? && !st.closed
      modifies this`currentType, this`currentDClass, this`currentTTL, this`needSOATTL, this`last, this`defaultTTL
      modifies st`pos, st`prevPos
      ensures Valid() && Made(o, ContinuedEffect(Conf(), old(Cur())))
    {
      var next := st.Get(false);
      if next.value.Eol? {
        return Continue;
      } else if next.value.Eof? {
        return Done(Success(None));
      }
      st.Unget();
      if last.None? {
        return Done(Failure(NoOwner));
      }
      o := ReadRecord(last.value.name);
    }

    /** A line that starts with the word s: a directive, or else the owner of a record. */
    method WordStep(s: string) returns (o: StepResult)
      requires Valid() && included == null && generator.None? && !st.closed
      modifies this`origin, this`defaultTTL, this`last, this`needSOATTL, this`currentType, this`currentDClass, this`currentTTL
      modifies this`generator, this`generators, this`included, this`Repr, this`child, st`pos, st`prevPos
      ensures Valid() && fresh(Repr - old(Repr))
      ensures Made(o, WordEffect(Conf(), old(Cur()), s))
      ensures included != null ==> fresh(included) && included.calls == 1 && o == Done(included.lastAnswer)
      decreases budget, 5
    {
      if |s| == 0 {
        return Done(Failure(IndexOutOfBounds));
      }
      if s[0] == '$' {
        o := Directive(s);
        return;
      }
      var n := env.nameFromString(s, origin);
      if n.Failure? {
        return Done(Failure(BadName(n.error)));
      }
      o := ReadRecord(n.value);
    }

    /**
     * The end of the loop of nextRecordInternal: class/TTL/type and the record data; the record
     * becomes the last one read, and a pending SOA TTL is settled from its minimum.
     */
    method ReadRecord(name: Name) returns (o: StepResult)
      requires Valid() && included == null && generator.None? && !st.closed
      modifies this`currentType, this`currentDClass, this`currentTTL, this`needSOATTL, this`last, this`defaultTTL
      modifies st`pos, st`prevPos
      ensures Valid() && Made(o, RecordEffect(Conf(), old(Cur()), name))
      ensures var l := RecordLine(env, old(st.Ahead()), name, origin, old(defaultTTL), old(last), old(needSOATTL));
        l.Success? ==>
          && currentType == l.value.header.rrType && currentDClass == l.value.header.dclass
          && currentTTL == l.value.header.ttl
    {
      var l := RecordLine(env, st.Ahead(), name, origin, defaultTTL, last, needSOATTL);
      if l.Failure? {
        return Done(Failure(l.error));
      }
      Commit(l.value);
      return Done(Success(last));
    }

    /** The words of the record line are read, and the record becomes the last one read. */
    method Commit(line: Line)
      requires Valid() && included == null && !st.closed && line.used <= |st.Ahead()|
      modifies this`currentType, this`currentDClass, this`currentTTL, this`needSOATTL, this`last, this`defaultTTL
      modifies st`pos, st`prevPos
      ensures Valid()
      ensures Cur() == old(Cur()).(pos := PosAfter(st.toks, old(st.pos), line.used), last := Some(line.record),
                                   defaultTTL := line.defaultTTL, needSoaTtl := false)
      ensures currentType == line.header.rrType && currentDClass == line.header.dclass && currentTTL == line.header.ttl
    {
      st.Advance(line.used);
      currentType := line.header.rrType;
      currentDClass := line.header.dclass;
      currentTTL := line.header.ttl;
      last := Some(line.record);
      defaultTTL := line.defaultTTL;
      needSOATTL := false;
    }

    /**
     * A directive, matched without regard to case: `$ORIGIN name` sets the origin, `$TTL ttl`
     * the default TTL, `$INCLUDE` and `$GENERATE` are handled below; anything else is refused.
     */
    method Directive(s: string) returns (o: StepResult)
      requires Valid() && included == null && generator.None? && !st.closed
      modifies this`origin, this`defaultTTL, this`last, this`needSOATTL, this`currentType, this`currentDClass, this`currentTTL
      modifies this`generator, this`generators, this`included, this`Repr, this`child, st`pos, st`prevPos
      ensures Valid() && fresh(Repr - old(Repr))
      ensures Made(o, DirectiveEffect(Conf(), old(Cur()), s))
      ensures included != null ==> fresh(included) && included.calls == 1 && o == Done(included.lastAnswer)
      decreases budget, 4
    {
      if EqualsIgnoreCase(s, "$ORIGIN") {
        o := OriginDirective();
      } else if EqualsIgnoreCase(s, "$TTL") {
        o := TtlDirective();
      } else if EqualsIgnoreCase(s, "$INCLUDE") {
        o := Include();
      } else if EqualsIgnoreCase(s, "$GENERATE") {
        o := Generate();
      } else {
        return Done(Failure(InvalidDirective(s)));
      }
    }

    /** `$ORIGIN name`: the name, absolute against the root, becomes the origin. */
    method OriginDirective() returns (o: StepResult)
      requires Valid() && included == null && generator.None? && !st.closed
      modifies this`origin, st`pos, st`prevPos
      ensures Valid() && Made(o, OriginEffect(Conf(), old(Cur())))
    {
      ghost var c := Cur();
      var w := st.GetIdentifier("a name");
      if w.Failure? {
        return Done(Failure(TokenFailure(w.error)));
      }
      var n := env.nameFromString(w.value, Some(Root));
      if n.Failure? {
        return Done(Failure(BadName(n.error)));
      }
      origin := Some(n.value);
      assert Cur() == c.(pos := ReadAt(st.toks, c.pos).1, origin := Some(n.value));
      o := EndLine();
    }

    /** getEOL at the end of a directive: past the end of the line reading goes on; anything else is an error. */
    method EndLine() returns (o: StepResult)
      requires Valid() && included == null && generator.None? && !st.closed
      modifies st`pos, st`prevPos
      ensures Valid() && Made(o, LineEnd(Conf(), old(Cur())))
    {
      var e := st.GetEOL();
      if e.Fail? {
        return Done(Failure(TokenFailure(e.error)));
      }
      return Continue;
    }

    /** `$TTL ttl`: the parsed TTL becomes the default TTL. */
    method TtlDirective() returns (o: StepResult)
      requires Valid() && included == null && generator.None? && !st.closed
      modifies this`defaultTTL, st`pos, st`prevPos
      ensures Valid() && Made(o, TtlEffect(Conf(), old(Cur())))
    {
      ghost var c := Cur();
      var w := st.GetIdentifier("a TTL value");
      if w.Failure? {
        return Done(Failure(TokenFailure(w.error)));
      }
      var ttl := env.parseTtl(w.value);
      if ttl.None? {
        return Done(Failure(TokenFailure(Expected("a TTL value"))));
      }
      defaultTTL := ttl.value;
      assert Cur() == c.(pos := ReadAt(st.toks, c.pos).1, defaultTTL := ttl.value);
      o := EndLine();
    }

    /**
     * `$INCLUDE file [origin]`: skipped, or refused in strict mode, when includes are disabled;
     * otherwise the file is read (IncludeFile).
     */
    method Include() returns (o: StepResult)
      requires Valid() && included == null && generator.None? && !st.closed
      modifies this`included, this`Repr, this`child, st`pos, st`prevPos
      ensures Valid() && fresh(Repr - old(Repr))
      ensures Made(o, IncludeEffect(Conf(), old(Cur())))
      ensures included != null ==> fresh(included) && included.calls == 1 && o == Done(included.lastAnswer)
      decreases budget, 3
    {
      if noExpandIncludes {
        o := SkipInclude();
      } else {
        o := IncludeFile();
      }
    }

    /** A disabled `$INCLUDE`: refused in strict mode, else its file name and the end of the line are read. */
    method SkipInclude() returns (o: StepResult)
      requires Valid() && included == null && generator.None? && !st.closed
      modifies st`pos, st`prevPos
      ensures Valid() && Made(o, SkipEffect(Conf(), old(Cur())))
    {
      if includeThrowsException {
        return Done(Failure(IncludeDisabled));
      }
      var w := st.GetString();
      if w.Failure? {
        return Done(Failure(TokenFailure(w.error)));
      }
      o := EndLine();
    }

    /**
     * An enabled `$INCLUDE`: the file and origin named on the line (IncludeTarget) are read
     * (ReadIncluded); a reader opened for it has read once from its start.
     */
    method IncludeFile() returns (o: StepResult)
      requires Valid() && included == null && generator.None? && !st.closed
      modifies this`included, this`Repr, this`child, st`pos, st`prevPos
      ensures Valid() && fresh(Repr - old(Repr))
      ensures Made(o, IncludeFileEffect(Conf(), old(Cur())))
      ensures var t := Target(Conf(), old(Cur())).0;
        t.Success? && budget > 0 && !(t.value.1.Some? && !t.value.1.value.absolute) && env.open(t.value.0).Success? ==>
          && child != null && fresh(child)
          && ReadOnce(child, IncludedConfig(env, env.open(t.value.0).value, t.value.0, budget - 1), t.value.1, old(defaultTTL))
      ensures included != null ==> fresh(included) && included == child && included.calls == 1 && o == Done(included.lastAnswer)
      decreases budget, 2
    {
      var target := IncludeTarget();
      if target.Failure? {
        return Done(Failure(target.error));
      }
      o := ReadIncluded(target.value.0, target.value.1);
    }

    /**
     * The words of an enabled `$INCLUDE`: the file name, taken relative to this file's directory
     * unless absolute (and refused for a stream), then an optional origin name and the end of
     * the line.
     */
    method IncludeTarget() returns (t: Result<(string, Option<Name>), MasterError>)
      requires st.Valid() && !st.closed
      modifies st`pos, st`prevPos
      ensures st.Valid() && (t, st.pos) == Target(Conf(), old(Cur()))
    {
      var filename := st.GetString();
      if filename.Failure? {
        return Failure(TokenFailure(filename.error));
      }
      var path := filename.value;
      if !env.isAbsolutePath(path) {
        if file.None? {
          return Failure(RelativeInclude);
        }
        path := env.resolve(file.value, path);
      }
      var includeOrigin := origin;
      var w := st.Get(false);
      if IsString(w.value) {
        var n := env.nameFromString(w.value.value, Some(Root));
        if n.Failure? {
          return Failure(BadName(n.error));
        }
        includeOrigin := Some(n.value);
        var e := st.GetEOL();
        if e.Fail? {
          return Failure(TokenFailure(e.error));
        }
      }
      t := Success((path, includeOrigin));
    }

    /**
     * The included file is opened with the current default TTL and its first record returned;
     * a file with no records lets this file go on.
     */
    method ReadIncluded(path: string, includeOrigin: Option<Name>) returns (o: StepResult)
      requires Valid() && included == null && generator.None?
      modifies this`included, this`Repr, this`child
      ensures Valid() && fresh(Repr - old(Repr))
      ensures Made(o, ReadIncludedEffect(Conf(), old(Cur()), path, includeOrigin))
      ensures budget > 0 && !(includeOrigin.Some? && !includeOrigin.value.absolute) && env.open(path).Success? ==>
                && child != null && fresh(child)
                && ReadOnce(child, IncludedConfig(env, env.open(path).value, path, budget - 1), includeOrigin, defaultTTL)
      ensures included != null ==> fresh(included) && included == child && included.calls == 1 && o == Done(included.lastAnswer)
      ensures child == old(child) || fresh(child)
      decreases budget, 1
    {
      if budget == 0 {
        return Done(Failure(IncludeTooDeep));
      }
      var reader, rec := ReadFirst(path, includeOrigin, defaultTTL, env, budget - 1);
      if reader == null {
        return Done(rec);
      }
      if rec.Failure? || rec.value.Some? {
        Adopt(reader);
        return Done(rec);
      }
      child := reader;
      return Continue;
    }

    /** The reader opened for an `$INCLUDE` is the one asked first from now on. */
    method Adopt(reader: Master)
      requires Valid() && included == null && generator.None?
      requires reader.Valid() && reader.budget < budget && this !in reader.Repr && st !in reader.Repr
      modifies this`included, this`Repr, this`child
      ensures Valid() && included == reader && child == reader && Repr == old(Repr) + reader.Repr
    {
      included := reader;
      child := reader;
      Repr := Repr + reader.Repr;
    }

    /**
     * new Master(file, origin, ttl) followed by its first nextRecord: a relative origin and an
     * unopenable file fail; otherwise the reader on the file has read once from its start.
     */
    static method ReadFirst(path: string, org: Option<Name>, ttl: int, env: Env, budget: nat)
      returns (reader: Master?, rec: Result<Option<Record>, MasterError>)
      ensures org.Some? && !org.value.absolute ==> reader == null && rec == Failure(RelativeName(org.value))
      ensures !(org.Some? && !org.value.absolute) && env.open(path).Failure? ==>
                reader == null && rec == Failure(Io(env.open(path).error))
      ensures !(org.Some? && !org.value.absolute) && env.open(path).Success? ==>
                && reader != null && fresh(reader.Repr) && reader.Valid() && reader.budget == budget
                && ReadOnce(reader, IncludedConfig(env, env.open(path).value, path, budget), org, ttl)
                && rec == reader.lastAnswer
      decreases budget + 1, 0
    {
      var made := OpenFile(path, org, ttl, env, budget);
      if made.Failure? {
        return null, Failure(made.error);
      }
      reader := made.value;
      rec := reader.NextRecord();
    }

    /**
     * `$GENERATE`: the spec is recorded whether or not it is expanded; unexpanded, reading goes
     * on after the line; expanded, its first record is returned.
     */
    method Generate() returns (o: StepResult)
      requires Valid() && included == null && generator.None? && !st.closed
      modifies this`generator, this`generators, this`currentType, this`currentDClass, this`currentTTL, this`needSOATTL
      modifies st`pos, st`prevPos
      ensures Valid() && included == null
      ensures Made(o, GenerateEffect(Conf(), old(Cur())))
    {
      if noExpandGenerate {
        o := RecordGenerate();
      } else {
        o := ExpandFirst();
      }
    }

    /** `$GENERATE` left unexpanded: the spec is recorded and reading goes on after the line. */
    method RecordGenerate() returns (o: StepResult)
      requires Valid() && included == null && generator.None? && !st.closed && noExpandGenerate
      modifies this`generator, this`generators, this`currentType, this`currentDClass, this`currentTTL, this`needSOATTL
      modifies st`pos, st`prevPos
      ensures Valid() && Made(o, GenerateEffect(Conf(), old(Cur())))
    {
      var started := StartGenerate();
      if started.Fail? {
        return Done(Failure(started.error));
      }
      var e := EndGenerate();
      assert e.Pass?;
      return Continue;
    }

    /** `$GENERATE` expanded: the spec is recorded and the first record it generates is returned. */
    method ExpandFirst() returns (o: StepResult)
      requires Valid() && included == null && generator.None? && !st.closed && !noExpandGenerate
      modifies this`generator, this`generators, this`currentType, this`currentDClass, this`currentTTL, this`needSOATTL
      modifies st`pos, st`prevPos
      ensures Valid() && Made(o, GenerateEffect(Conf(), old(Cur())))
    {
      var started := StartGenerate();
      if started.Fail? {
        return Done(Failure(started.error));
      }
      var rec := NextGenerated();
      return Done(rec);
    }

    /**
     * startGenerate: range, name pattern, class/TTL/type and data pattern; the end of the line
     * is checked and left to be read; the new generator is open and appended to the specs.
     */
    method StartGenerate() returns (r: Outcome<MasterError>)
      requires Valid() && included == null && !st.closed
      modifies this`generator, this`generators, this`currentType, this`currentDClass, this`currentTTL, this`needSOATTL
      modifies st`pos, st`prevPos
      ensures Valid()
      ensures var g := ParseGenerate(env, old(st.Ahead()), defaultTTL, last, origin);
        && (g.Failure? ==> r == Fail(g.error) && Cur() == old(Cur()) && generator == old(generator))
        && (g.Success? ==>
              && r.Pass? && generator == Some(GenState(g.value.spec, 0))
              && Cur() == Begun(Conf(), old(Cur()), g.value)
              && currentType == g.value.header.rrType && currentDClass == g.value.header.dclass
              && currentTTL == g.value.header.ttl
              && (st.Ahead() == [] || st.Ahead()[0].Eol? || st.Ahead()[0].Eof?))
    {
      var g := ParseGenerate(env, st.Ahead(), defaultTTL, last, origin);
      if g.Failure? {
        return Fail(g.error);
      }
      Begin(g.value);
      return Pass;
    }

    /** The effects of an accepted `$GENERATE` line: its tokens read, its header current, its generator open. */
    method Begin(line: GenerateLine)
      requires Valid() && included == null && !st.closed && line.used <= |st.Ahead()|
      modifies this`generator, this`generators, this`currentType, this`currentDClass, this`currentTTL, this`needSOATTL
      modifies st`pos, st`prevPos
      ensures Valid() && Cur() == Begun(Conf(), old(Cur()), line)
      ensures generator == Some(GenState(line.spec, 0))
      ensures currentType == line.header.rrType && currentDClass == line.header.dclass && currentTTL == line.header.ttl
      ensures st.Ahead() == old(st.Ahead())[line.used..]
    {
      st.Advance(line.used);
      currentType := line.header.rrType;
      currentDClass := line.header.dclass;
      currentTTL := line.header.ttl;
      needSOATTL := needSOATTL || line.header.needSoaTtl;
      generator := Some(GenState(line.spec, 0));
      generators := generators + [line.spec];
    }

    /** endGenerate: reads the end of the `$GENERATE` line and closes the generator. */
    method EndGenerate() returns (r: Outcome<MasterError>)
      requires Valid()
      modifies this`generator, st`pos, st`prevPos
      ensures Valid()
      ensures old(st.closed) ==> r == Fail(TokenFailure(StreamClosed)) && Cur() == old(Cur())
      ensures !old(st.closed) ==>
                var e := LineEnd(Conf(), old(Cur()));
                && Cur() == e.cur && (r.Pass? <==> e.o.Continue?) && (r.Fail? ==> e.o == Done(Failure(r.error)))
      ensures var a := old(st.Ahead());
        !old(st.closed) ==> (r.Pass? <==> a == [] || a[0].Eol? || a[0].Eof?)
      ensures r.Pass? ==> generator.None?
      ensures r.Fail? ==> generator == old(generator)
    {
      var e := st.GetEOL();
      if e.Fail? {
        return Fail(TokenFailure(e.error));
      }
      generator := None;
      return Pass;
    }

    /** nextGenerated: the open generator's next record; each answered call moves it on by one. */
    method NextGenerated() returns (r: Result<Option<Record>, MasterError>)
      requires Valid() && generator.Some?
      modifies this`generator
      ensures Valid() && r == Generated(env, old(generator.value))
      ensures r.Success? ==> generator == Some(old(generator.value).(calls := old(generator.value).calls + 1))
      ensures r.Failure? ==> generator == old(generator)
    {
      var g := generator.value;
      r := Generated(env, g);
      if r.Success? {
        generator := Some(g.(calls := g.calls + 1));
      }
    }

    /** disableIncludes(strict): `$INCLUDE` is skipped from now on, or refused when strict. */
    method DisableIncludes(strict: bool)
      requires Valid()
      modifies this`noExpandIncludes, this`includeThrowsException
      ensures Valid() && noExpandIncludes && includeThrowsException == strict
    {
      noExpandIncludes := true;
      includeThrowsException := strict;
    }

    /** expandGenerate(wantExpand): whether later `$GENERATE` lines are expanded. */
    method ExpandGenerate(wantExpand: bool)
      requires Valid()
      modifies this`noExpandGenerate
      ensures Valid() && noExpandGenerate == !wantExpand
    {
      noExpandGenerate := !wantExpand;
    }

    /** generators: the `$GENERATE` specs seen so far, in order. */
    function Generators(): seq<GeneratorSpec>
      reads this
    {
      generators
    }

    /** close */
    method Close()
      requires Valid()
      modifies st`closed
      ensures Valid() && st.closed
    {
      st.Close();
    }
  }

  /**
   * What a reader opened for an `$INCLUDE` answered the one time it was asked: when the first
   * line of its file that is not blank is a record, an error or the end, that is the answer.
   */
  lemma IncludedAnswer(m: Master, C: Config, org: Option<Name>, ttl: int)
    requires Master.ReadOnce(m, C, org, ttl)
    ensures var f := FirstLine(C.env, C.toks, 0, org, ttl, None, false);
            f.Answered? ==> m.lastAnswer == f.result
  {
    FirstAnswer(C, org, ttl);
  }
}
