/**
 * The token stream a master-file parser reads. The tokenizer itself (quoting, comments,
 * parentheses, line counting) is not part of this model: its output is taken as a finished
 * sequence of tokens, and reading it follows the Tokenizer contract the parser relies on: `get`
 * skips whitespace unless asked for it, reports EOF without moving once the input is used up, and
 * one token can be put back. An `Eof` token inside the sequence is read like any other token; the
 * tokenizer produces one only as the last token, after which reading stays at the end.
 */
module Tokens {
  import opened Base

  datatype Token =
    | Ident(value: string)    // an unquoted word
    | Quoted(value: string)   // a quoted string, quotes removed
    | Whitespace
    | Eol
    | Eof

  /** Token.isString */
  predicate IsString(t: Token) {
    t.Ident? || t.Quoted?
  }

  /** The tokenizer's exceptions, as the parser sees them. */
  datatype TokenError =
    | Expected(what: string)   // "expected a string", "expected an identifier", "expected EOL or EOF"
    | StreamClosed             // reading after close()

  /** The tokens a reader that skips whitespace will see, in order. */
  function NonWs(s: seq<Token>): (r: seq<Token>)
    ensures |r| <= |s|
    ensures forall i :: 0 <= i < |r| ==> !r[i].Whitespace?
    decreases |s|
  {
    if s == [] then [] else (if s[0].Whitespace? then [] else [s[0]]) + NonWs(s[1..])
  }

  /** The first index at or after i that a read with this whitespace setting stops at. */
  function Skip(toks: seq<Token>, i: nat, wantWs: bool): (j: nat)
    requires i <= |toks|
    ensures i <= j <= |toks|
    ensures !wantWs && j < |toks| ==> !toks[j].Whitespace?
    ensures wantWs ==> j == i
    ensures forall k :: i <= k < j ==> toks[k].Whitespace?
    decreases |toks| - i
  {
    if !wantWs && i < |toks| && toks[i].Whitespace? then Skip(toks, i + 1, wantWs) else i
  }

  /** Whitespace in front changes nothing about the tokens a whitespace-skipping reader sees. */
  lemma {:induction false} NonWsSkip(toks: seq<Token>, i: nat)
    requires i <= |toks|
    ensures NonWs(toks[i..]) == NonWs(toks[Skip(toks, i, false)..])
    decreases |toks| - i
  {
    if i < |toks| && toks[i].Whitespace? {
      assert toks[i..][1..] == toks[i + 1..];
      NonWsSkip(toks, i + 1);
    }
  }

  /** Reading one token at i removes exactly that token (if it is not whitespace) from what is ahead. */
  lemma NonWsStep(toks: seq<Token>, i: nat)
    requires i < |toks|
    ensures NonWs(toks[i..]) == (if toks[i].Whitespace? then [] else [toks[i]]) + NonWs(toks[i + 1..])
  {
    assert toks[i..][1..] == toks[i + 1..];
  }

  /** The tokens a whitespace-skipping reader at position p will see. */
  function AheadAt(toks: seq<Token>, p: nat): seq<Token>
    requires p <= |toks|
  {
    NonWs(toks[p..])
  }

  /** One whitespace-skipping read from position p: the token it returns and where it leaves off. */
  function ReadAt(toks: seq<Token>, p: nat): (r: (Token, nat))
    requires p <= |toks|
    ensures p <= r.1 <= |toks|
    ensures !r.0.Eof? ==> r.1 > p
  {
    var j := Skip(toks, p, false);
    if j < |toks| then (toks[j], j + 1) else (Eof, j)
  }

  /** Where n whitespace-skipping reads from position p leave off. */
  function PosAfter(toks: seq<Token>, p: nat, n: nat): (q: nat)
    requires p <= |toks|
    ensures p <= q <= |toks|
    decreases n
  {
    if n == 0 then p else ReadAt(toks, PosAfter(toks, p, n - 1)).1
  }

  /** A read returns the first token ahead and removes it from what is ahead. */
  lemma ReadAtAhead(toks: seq<Token>, p: nat)
    requires p <= |toks|
    ensures var a := AheadAt(toks, p);
            && ReadAt(toks, p).0 == (if a == [] then Eof else a[0])
            && AheadAt(toks, ReadAt(toks, p).1) == (if a == [] then [] else a[1..])
            && (a != [] ==> ReadAt(toks, p).1 > p)
  {
    var j := Skip(toks, p, false);
    NonWsSkip(toks, p);
    if j < |toks| {
      NonWsStep(toks, j);
    }
  }

  /** n reads remove the first n tokens ahead. */
  lemma {:induction false} AheadAfter(toks: seq<Token>, p: nat, n: nat)
    requires p <= |toks| && n <= |AheadAt(toks, p)|
    ensures AheadAt(toks, PosAfter(toks, p, n)) == AheadAt(toks, p)[n..]
    ensures n > 0 ==> PosAfter(toks, p, n) > p
    decreases n
  {
    if n > 0 {
      AheadAfter(toks, p, n - 1);
      ReadAtAhead(toks, PosAfter(toks, p, n - 1));
    }
  }

  /** Two reads return the first two tokens ahead, EOF where there are none. */
  lemma TwoReads(toks: seq<Token>, p: nat)
    requires p <= |toks|
    ensures var a := AheadAt(toks, p);
            var q := ReadAt(toks, p).1;
            && ReadAt(toks, p).0 == (if |a| == 0 then Eof else a[0])
            && ReadAt(toks, q).0 == (if |a| < 2 then Eof else a[1])
            && AheadAt(toks, ReadAt(toks, q).1) == (if |a| < 2 then [] else a[2..])
            && PosAfter(toks, p, 2) == ReadAt(toks, q).1
  {
    var a := AheadAt(toks, p);
    var q := ReadAt(toks, p).1;
    ReadAtAhead(toks, p);
    ReadAtAhead(toks, q);
    assert AheadAt(toks, q) == (if a == [] then [] else a[1..]);
    assert PosAfter(toks, p, 1) == q;
  }

  class Tokenizer {
    const toks: seq<Token>
    var pos: nat
    var prevPos: nat
    var closed: bool

    ghost predicate Valid()
      reads this
    {
      pos <= |toks| && prevPos <= |toks|
    }

    /** The tokens still to be read by a whitespace-skipping reader. */
    function Ahead(): seq<Token>
      reads this
      requires Valid()
    {
      AheadAt(toks, pos)
    }

    constructor (toks: seq<Token>)
      ensures Valid() && this.toks == toks && pos == 0 && !closed
    {
      this.toks := toks;
      pos := 0;
      prevPos := 0;
      closed := false;
    }

    /**
     * Tokenizer.get(wantWhitespace, false): the next token, skipping whitespace unless it is
     * wanted; EOF at the end of input, without moving.
     */
    method Get(wantWs: bool) returns (r: Result<Token, TokenError>)
      requires Valid()
      modifies this`pos, this`prevPos
      ensures Valid() && pos >= old(pos)
      ensures old(closed) ==> r == Failure(StreamClosed) && pos == old(pos) && prevPos == old(prevPos)
      ensures !old(closed) ==> prevPos == old(pos)
      ensures !old(closed) && !wantWs ==>
                && r == Success(if old(Ahead()) == [] then Eof else old(Ahead())[0])
                && Ahead() == (if old(Ahead()) == [] then [] else old(Ahead())[1..])
                && (old(Ahead()) != [] ==> pos > old(pos))
                && (r.value, pos) == ReadAt(toks, old(pos))
      ensures !old(closed) && wantWs ==>
                && r == Success(if old(pos) < |toks| then toks[old(pos)] else Eof)
                && pos == (if old(pos) < |toks| then old(pos) + 1 else old(pos))
                && (old(pos) < |toks| && !toks[old(pos)].Whitespace? ==> old(Ahead()) == [toks[old(pos)]] + Ahead())
                && (old(pos) < |toks| && toks[old(pos)].Whitespace? ==> old(Ahead()) == Ahead())
    {
      if closed {
        return Failure(StreamClosed);
      }
      prevPos := pos;
      if !wantWs {
        ReadAtAhead(toks, pos);
        r := Success(ReadAt(toks, pos).0);
        pos := ReadAt(toks, pos).1;
      } else if pos < |toks| {
        NonWsStep(toks, pos);
        r := Success(toks[pos]);
        pos := pos + 1;
      } else {
        r := Success(Eof);
      }
    }

    /** Tokenizer.unget: the last token read will be read again. */
    method Unget()
      requires Valid()
      modifies this`pos
      ensures Valid() && pos == old(prevPos)
    {
      pos := prevPos;
    }

    /** Tokenizer.getString: a word or quoted string. */
    method GetString() returns (r: Result<string, TokenError>)
      requires Valid()
      modifies this`pos, this`prevPos
      ensures Valid() && pos >= old(pos) && (!old(closed) ==> prevPos == old(pos))
      ensures old(closed) ==> r == Failure(StreamClosed) && pos == old(pos)
      ensures !old(closed) ==>
                && pos == ReadAt(toks, old(pos)).1
                && (r.Success? <==> IsString(ReadAt(toks, old(pos)).0))
                && (r.Success? ==> r.value == ReadAt(toks, old(pos)).0.value)
      ensures !old(closed) ==>
                && (r.Success? <==> old(Ahead()) != [] && IsString(old(Ahead())[0]))
                && (r.Success? ==> r.value == old(Ahead())[0].value && Ahead() == old(Ahead())[1..] && pos > old(pos))
                && (r.Failure? ==> r.error == Expected("a string"))
    {
      var t := Get(false);
      if t.Failure? {
        return Failure(t.error);
      }
      if !IsString(t.value) {
        return Failure(Expected("a string"));
      }
      return Success(t.value.value);
    }

    /** Tokenizer.getIdentifier and its relatives: an unquoted word, else "expected <what>". */
    method GetIdentifier(what: string) returns (r: Result<string, TokenError>)
      requires Valid()
      modifies this`pos, this`prevPos
      ensures Valid() && pos >= old(pos) && (!old(closed) ==> prevPos == old(pos))
      ensures old(closed) ==> r == Failure(StreamClosed) && pos == old(pos)
      ensures !old(closed) ==>
                && pos == ReadAt(toks, old(pos)).1
                && (r.Success? <==> ReadAt(toks, old(pos)).0.Ident?)
                && (r.Success? ==> r.value == ReadAt(toks, old(pos)).0.value)
      ensures !old(closed) ==>
                && (r.Success? <==> old(Ahead()) != [] && old(Ahead())[0].Ident?)
                && (r.Success? ==> r.value == old(Ahead())[0].value && Ahead() == old(Ahead())[1..] && pos > old(pos))
                && (r.Failure? ==> r.error == Expected(what))
    {
      var t := Get(false);
      if t.Failure? {
        return Failure(t.error);
      }
      if !t.value.Ident? {
        return Failure(Expected(what));
      }
      return Success(t.value.value);
    }

    /** Tokenizer.getEOL: the end of the line or of the input must come next. */
    method GetEOL() returns (r: Outcome<TokenError>)
      requires Valid()
      modifies this`pos, this`prevPos
      ensures Valid() && pos >= old(pos) && (!old(closed) ==> prevPos == old(pos))
      ensures old(closed) ==> r == Fail(StreamClosed) && pos == old(pos)
      ensures !old(closed) ==>
                && pos == ReadAt(toks, old(pos)).1
                && (r.Pass? <==> ReadAt(toks, old(pos)).0.Eol? || ReadAt(toks, old(pos)).0.Eof?)
      ensures !old(closed) ==>
                && (r.Pass? <==> old(Ahead()) == [] || old(Ahead())[0].Eol? || old(Ahead())[0].Eof?)
                && (r.Fail? ==> r.error == Expected("EOL or EOF"))
                && Ahead() == if old(Ahead()) == [] then [] else old(Ahead())[1..]
    {
      var t := Get(false);
      if t.Failure? {
        return Fail(t.error);
      }
      if !t.value.Eol? && !t.value.Eof? {
        return Fail(Expected("EOL or EOF"));
      }
      return Pass;
    }

    /** Consumes n tokens the way n whitespace-skipping reads would. */
    method Advance(n: nat)
      requires Valid() && !closed && n <= |Ahead()|
      modifies this`pos, this`prevPos
      ensures Valid() && Ahead() == old(Ahead())[n..]
      ensures pos == PosAfter(toks, old(pos), n)
      ensures pos >= old(pos) && (n > 0 ==> pos > old(pos))
    {
      if n > 0 {
        prevPos := PosAfter(toks, pos, n - 1);
      }
      AheadAfter(toks, pos, n);
      pos := PosAfter(toks, pos, n);
    }

    /** Tokenizer.close */
    method Close()
      modifies this`closed
      ensures closed
    {
      closed := true;
    }
  }
}
