/**
 * EDNS options (EDNSOption.java): the option framing of section 6.1.2 of RFC 6891,
 * `code(16) | length(16) | data`, the dispatch of a decoded option to its type by code, the
 * equality and hash of options, and the table of option-code mnemonics.
 *
 * The concrete option types are not part of this model: an option carries its kind and an opaque
 * body, and the per-kind encoder (optionToWire) and decoder (optionFromWire) are parameters.
 */
module Edns {
  import opened Base
  import opened Text
  import opened Mnemonics

  /** An unsigned byte (Java's `b & 0xFF`). */
  type byte = x: int | 0 <= x < 256
  type u32 = x: int | 0 <= x < 0x1_0000_0000
  type u16 = x: int | 0 <= x <= 0xFFFF

  /** Which option class the code dispatches to. */
  datatype Kind = Nsid | ClientSubnet | DnssecAlgorithm | Cookie | TcpKeepalive | ExtendedError | Generic

  const NSID: u16 := 3
  const DAU: u16 := 5
  const DHU: u16 := 6
  const N3U: u16 := 7
  const CLIENT_SUBNET: u16 := 8
  const COOKIE: u16 := 10
  const TCP_KEEPALIVE: u16 := 11
  const EDNS_EXTENDED_ERROR: u16 := 15

  /** An option: its code, the class it was built as, and that class's state. */
  datatype EdnsOption<B> = EdnsOption(code: u16, kind: Kind, body: B)

  /** The exceptions of this component. */
  datatype WireError =
    | EndOfInput                  // DNSInput has fewer bytes left than a read needs
    | TruncatedOption             // "truncated option"
    | DecoderFailed(msg: string)  // thrown by a type-specific decoder
    | CodeOutOfRange(code: int)   // Record.checkU16 in the constructor
    | LengthOutOfRange(len: int)  // the backpatched length does not fit 16 bits

  /** What a type-specific decoder produced, and how many bytes of its window it read. */
  datatype Decoded<B> = Decoded(body: B, consumed: nat)

  type Decoder<!B> = (Kind, u16, seq<byte>) -> Result<Decoded<B>, WireError>
  type Encoder<!B> = (Kind, B) -> seq<byte>

  /** A decoder never reads beyond the window it is given. */
  ghost predicate DecoderStaysInWindow<B>(decode: Decoder<B>) {
    forall k, c, w :: decode(k, c, w).Success? ==> decode(k, c, w).value.consumed <= |w|
  }

  /** The switch of EDNSOption.fromWire. */
  function KindOf(code: u16): (k: Kind)
    ensures k == Nsid <==> code == NSID
    ensures k == ClientSubnet <==> code == CLIENT_SUBNET
    ensures k == DnssecAlgorithm <==> code == DAU || code == DHU || code == N3U
    ensures k == Cookie <==> code == COOKIE
    ensures k == TcpKeepalive <==> code == TCP_KEEPALIVE
    ensures k == ExtendedError <==> code == EDNS_EXTENDED_ERROR
  {
    if code == NSID then Nsid
    else if code == CLIENT_SUBNET then ClientSubnet
    else if code == DAU || code == DHU || code == N3U then DnssecAlgorithm
    else if code == COOKIE then Cookie
    else if code == TCP_KEEPALIVE then TcpKeepalive
    else if code == EDNS_EXTENDED_ERROR then ExtendedError
    else Generic
  }

  /** The dispatch table: 3, 8, 10, 11, 15 have their own class, 5-7 share one, all else is generic. */
  lemma DispatchTable(code: u16)
    ensures KindOf(code) == Generic <==> code !in {3, 5, 6, 7, 8, 10, 11, 15}
    ensures KindOf(code) == DnssecAlgorithm <==> code in {5, 6, 7}
    ensures forall c: u16 :: c != code && KindOf(c) == KindOf(code) && KindOf(code) != Generic ==>
              KindOf(code) == DnssecAlgorithm
  {
  }

  /** The EDNSOption constructor: the code must fit 16 bits. */
  function NewOption<B>(code: int, kind: Kind, body: B): (r: Result<EdnsOption<B>, WireError>)
    ensures r.Success? <==> 0 <= code <= 0xFFFF
    ensures r.Success? ==> r.value.code == code && r.value.kind == kind && r.value.body == body
  {
    if 0 <= code <= 0xFFFF then Success(EdnsOption(code, kind, body)) else Failure(CodeOutOfRange(code))
  }

  // ---------------------------------------------------------------------------------------------
  // Wire form

  function U16Bytes(v: u16): seq<byte> {
    assert v / 256 < 256;
    [v / 256, v % 256]
  }

  function U16At(s: seq<byte>, i: nat): u16
    requires i + 2 <= |s|
  {
    (s[i] as int) * 256 + (s[i + 1] as int)
  }

  lemma U16RoundTrip(v: u16, s: seq<byte>, i: nat)
    requires i + 2 <= |s| && s[i..i + 2] == U16Bytes(v)
    ensures U16At(s, i) == v
  {
    assert s[i] == U16Bytes(v)[0] && s[i + 1] == U16Bytes(v)[1];
  }

  /** getData: the option's payload as its class writes it. */
  function Data<B>(o: EdnsOption<B>, encode: Encoder<B>): seq<byte> {
    encode(o.kind, o.body)
  }

  /** The whole option on the wire: code, payload length, payload. */
  function WireForm(code: u16, payload: seq<byte>): seq<byte>
    requires |payload| <= 0xFFFF
  {
    U16Bytes(code) + U16Bytes(|payload|) + payload
  }

  /**
   * fromWire over the bytes still readable: the option and how many bytes it took
   * (four header bytes plus what the type decoder read of its window).
   */
  function ParseOption<B>(w: seq<byte>, decode: Decoder<B>): (r: Result<(EdnsOption<B>, nat), WireError>)
    requires DecoderStaysInWindow(decode)
    ensures r.Success? ==> 4 <= r.value.1 <= |w|
  {
    if |w| < 4 then Failure(EndOfInput)
    else
      var code := U16At(w, 0);
      var length := U16At(w, 2);
      if |w| - 4 < length then Failure(TruncatedOption)
      else match decode(KindOf(code), code, w[4..4 + length])
        case Failure(e) => Failure(e)
        case Success(d) => Success((EdnsOption(code, KindOf(code), d.body), 4 + d.consumed))
  }

  /** A declared length beyond the remaining input is "truncated option", whatever the decoder. */
  lemma TruncatedIsRejected<B>(code: u16, length: u16, rest: seq<byte>, decode: Decoder<B>)
    requires DecoderStaysInWindow(decode) && |rest| < length
    ensures ParseOption(U16Bytes(code) + U16Bytes(length) + rest, decode) == Failure(TruncatedOption)
  {
    var w := U16Bytes(code) + U16Bytes(length) + rest;
    U16RoundTrip(code, w, 0);
    U16RoundTrip(length, w, 2);
  }

  /**
   * The type decoder sees exactly the declared window: bytes after it cannot change the option,
   * only whether it is followed by more input.
   */
  lemma DecoderSeesOnlyWindow<B>(w: seq<byte>, more: seq<byte>, decode: Decoder<B>)
    requires DecoderStaysInWindow(decode)
    requires ParseOption(w, decode).Success?
    ensures ParseOption(w + more, decode) == ParseOption(w, decode)
  {
    var w' := w + more;
    assert w'[..4] == w[..4];
    assert U16At(w', 0) == U16At(w, 0) && U16At(w', 2) == U16At(w, 2);
    var length := U16At(w, 2);
    assert w'[4..4 + length] == w[4..4 + length];
  }

  /**
   * Round trip: when an option's class reads back what it writes, decoding the option's wire form
   * gives the option back and consumes exactly the wire form, whatever follows it.
   */
  lemma WireRoundTrip<B>(o: EdnsOption<B>, encode: Encoder<B>, decode: Decoder<B>, rest: seq<byte>)
    requires DecoderStaysInWindow(decode)
    requires o.kind == KindOf(o.code) && |Data(o, encode)| <= 0xFFFF
    requires decode(o.kind, o.code, Data(o, encode)) == Success(Decoded(o.body, |Data(o, encode)|))
    ensures ParseOption(WireForm(o.code, Data(o, encode)) + rest, decode)
            == Success((o, |WireForm(o.code, Data(o, encode))|))
  {
    var data := Data(o, encode);
    var w := WireForm(o.code, data) + rest;
    U16RoundTrip(o.code, w, 0);
    assert w[2..4] == U16Bytes(|data|);
    U16RoundTrip(|data|, w, 2);
    assert w[4..4 + |data|] == data;
  }

  // ---------------------------------------------------------------------------------------------
  // Equality and hash

  /** EDNSOption.equals: same code and byte-wise equal payloads. */
  function OptionEquals<B>(a: EdnsOption<B>, b: EdnsOption<B>, encode: Encoder<B>): (r: bool)
    ensures a == b ==> r
    ensures r <==> a.code == b.code && |Data(a, encode)| == |Data(b, encode)|
                   && forall i :: 0 <= i < |Data(a, encode)| ==> Data(a, encode)[i] == Data(b, encode)[i]
  {
    a.code == b.code && Data(a, encode) == Data(b, encode)
  }

  /**
   * One step of the hash, `hashval += (hashval << 3) + (b & 0xFF)`, on the 32-bit pattern of
   * hashval: the shift and both additions wrap modulo 2^32.
   */
  function HashStep(h: u32, b: byte): u32 {
    (h + (h * 8) % 0x1_0000_0000 + b) % 0x1_0000_0000
  }

  /** The hash of a payload: the step folded over its bytes from the first. */
  function HashOf(data: seq<byte>): u32
    decreases |data|
  {
    if data == [] then 0 else HashStep(HashOf(data[..|data| - 1]), data[|data| - 1])
  }

  /** A step multiplies by nine and adds the unsigned byte, modulo 2^32. */
  lemma HashStepArithmetic(h: u32, b: byte)
    ensures HashStep(h, b) == (9 * h + b) % 0x1_0000_0000
  {
    var M := 0x1_0000_0000;
    var q := (h * 8) / M;
    assert h * 8 == q * M + (h * 8) % M;
    assert 9 * h + b == (h + (h * 8) % M + b) + q * M;
  }

  /** Equal options hash equal. */
  lemma EqualOptionsHashEqual<B>(a: EdnsOption<B>, b: EdnsOption<B>, encode: Encoder<B>)
    requires OptionEquals(a, b, encode)
    ensures HashOf(Data(a, encode)) == HashOf(Data(b, encode))
  {
  }

  /** EDNSOption.hashCode: the loop over getData(). */
  method HashCode<B>(o: EdnsOption<B>, encode: Encoder<B>) returns (hashval: u32)
    ensures hashval == HashOf(Data(o, encode))
  {
    var payload := Data(o, encode);
    hashval := 0;
    var i := 0;
    while i < |payload|
      invariant 0 <= i <= |payload|
      invariant hashval == HashOf(payload[..i])
    {
      assert payload[..i + 1][..i] == payload[..i];
      hashval := HashStep(hashval, payload[i]);
      i := i + 1;
    }
    assert payload[..i] == payload;
  }

  // ---------------------------------------------------------------------------------------------
  // The stateful input and output buffers that fromWire and toWire drive

  /** A read cursor over a message with an active end (DNSInput). */
  class WireInput {
    const data: seq<byte>
    var pos: nat
    var end: nat

    ghost predicate Valid()
      reads this
    {
      pos <= end <= |data|
    }

    constructor (data: seq<byte>)
      ensures Valid() && this.data == data && pos == 0 && end == |data|
    {
      this.data := data;
      pos := 0;
      end := |data|;
    }

    /** The bytes between the cursor and the active end. */
    function Readable(): seq<byte>
      reads this
      requires Valid()
    {
      data[pos..end]
    }

    method ReadU16() returns (r: Result<u16, WireError>)
      requires Valid()
      modifies this`pos
      ensures Valid()
      ensures old(end - pos) < 2 ==> r == Failure(EndOfInput) && pos == old(pos)
      ensures old(end - pos) >= 2 ==> r == Success(U16At(data, old(pos))) && pos == old(pos) + 2
    {
      if end - pos < 2 {
        return Failure(EndOfInput);
      }
      r := Success(U16At(data, pos));
      pos := pos + 2;
    }
  }

  /**
   * EDNSOption.fromWire: read code and length, reject a length beyond the remaining input, narrow
   * the active end to the option's window, let the class chosen by code decode it, and restore the
   * outer end.
   */
  method FromWire<B>(input: WireInput, decode: Decoder<B>) returns (r: Result<EdnsOption<B>, WireError>)
    requires input.Valid() && DecoderStaysInWindow(decode)
    modifies input`pos, input`end
    ensures input.Valid()
    ensures r.Success? <==> ParseOption(old(input.Readable()), decode).Success?
    ensures r.Failure? ==> r.error == ParseOption(old(input.Readable()), decode).error
    ensures r.Success? ==>
              && r.value == ParseOption(old(input.Readable()), decode).value.0
              && input.pos == old(input.pos) + ParseOption(old(input.Readable()), decode).value.1
              && input.end == old(input.end)
  {
    ghost var w := input.Readable();
    ghost var p0, e0 := input.pos, input.end;
    var code := input.ReadU16();
    if code.Failure? {
      return Failure(code.error);
    }
    var length := input.ReadU16();
    if length.Failure? {
      return Failure(length.error);
    }
    assert input.pos == p0 + 4 && |w| >= 4;
    assert w[0] == input.data[p0] && w[1] == input.data[p0 + 1];
    assert w[2] == input.data[p0 + 2] && w[3] == input.data[p0 + 3];
    assert U16At(w, 0) == code.value && U16At(w, 2) == length.value;
    if input.end - input.pos < length.value {
      return Failure(TruncatedOption);
    }
    var save := input.end;
    input.end := input.pos + length.value;
    var kind := KindOf(code.value);
    assert p0 + 4 + length.value <= e0 && w == input.data[p0..e0];
    assert forall j: int :: 4 <= j < 4 + (length.value as int) ==> w[j] == input.data[p0 + j];
    assert input.data[input.pos..input.end] == w[4..4 + length.value];
    var decoded := decode(kind, code.value, input.data[input.pos..input.end]);
    if decoded.Failure? {
      return Failure(decoded.error);
    }
    input.pos := input.pos + decoded.value.consumed;
    input.end := save;
    r := Success(EdnsOption(code.value, kind, decoded.value.body));
  }

  /** A growing output buffer (DNSOutput). */
  class WireOutput {
    var buf: seq<byte>

    constructor ()
      ensures buf == []
    {
      buf := [];
    }

    method WriteU16(v: u16)
      modifies this
      ensures buf == old(buf) + U16Bytes(v)
    {
      buf := buf + U16Bytes(v);
    }

    method WriteBytes(b: seq<byte>)
      modifies this
      ensures buf == old(buf) + b
    {
      buf := buf + b;
    }

    /** Overwrites two bytes already written; the value must fit 16 bits. */
    method WriteU16At(v: int, at: nat) returns (r: Outcome<WireError>)
      requires at + 2 <= |buf|
      modifies this
      ensures r.Pass? <==> 0 <= v <= 0xFFFF
      ensures r.Pass? ==> buf == old(buf)[..at] + U16Bytes(v) + old(buf)[at + 2..]
      ensures r.Fail? ==> buf == old(buf)
    {
      if v < 0 || v > 0xFFFF {
        return Fail(LengthOutOfRange(v));
      }
      buf := buf[..at] + U16Bytes(v) + buf[at + 2..];
      r := Pass;
    }
  }

  /**
   * EDNSOption.toWire: write the code, a zero placeholder, the payload, then backpatch the
   * placeholder with the number of payload bytes actually written.
   */
  method ToWire<B>(o: EdnsOption<B>, encode: Encoder<B>, out: WireOutput) returns (r: Outcome<WireError>)
    modifies out
    ensures r.Pass? <==> |Data(o, encode)| <= 0xFFFF
    ensures r.Pass? ==> out.buf == old(out.buf) + WireForm(o.code, Data(o, encode))
    ensures r.Fail? ==> out.buf == old(out.buf) + U16Bytes(o.code) + U16Bytes(0) + Data(o, encode)
  {
    out.WriteU16(o.code);
    var lengthPosition := |out.buf|;
    out.WriteU16(0);
    out.WriteBytes(Data(o, encode));
    var length := |out.buf| - lengthPosition - 2;
    assert length == |Data(o, encode)|;
    r := out.WriteU16At(length, lengthPosition);
    if r.Pass? {
      assert out.buf == old(out.buf) + WireForm(o.code, Data(o, encode));
    }
  }

  // ---------------------------------------------------------------------------------------------
  // Option code mnemonics (EDNSOption.Code)

  const CodeValues: map<int, string> := map[
    1 := "LLQ", 2 := "UL", 3 := "NSID", 5 := "DAU", 6 := "DHU", 7 := "N3U",
    8 := "edns-client-subnet", 9 := "EDNS_EXPIRE", 10 := "COOKIE", 11 := "edns-tcp-keepalive",
    12 := "Padding", 13 := "CHAIN", 14 := "edns-key-tag", 15 := "Extended_DNS_Error",
    16 := "EDNS-Client-Tag", 17 := "EDNS-Server-Tag", 18 := "Report-Channel"]

  const CodeStrings: map<string, int> := map[
    "LLQ" := 1, "UL" := 2, "NSID" := 3, "DAU" := 5, "DHU" := 6, "N3U" := 7,
    "edns-client-subnet" := 8, "EDNS_EXPIRE" := 9, "COOKIE" := 10, "edns-tcp-keepalive" := 11,
    "Padding" := 12, "CHAIN" := 13, "edns-key-tag" := 14, "Extended_DNS_Error" := 15,
    "EDNS-Client-Tag" := 16, "EDNS-Server-Tag" := 17, "Report-Channel" := 18]

  /** The table as the static initializer leaves it: case-sensitive, max 0xFFFF, prefix "CODE". */
  const Codes: Table := Table("EDNS Option Codes", CaseSensitive, 0xFFFF, Some("CODE"), true,
                              CodeStrings, CodeValues)

  /** Code.string */
  function CodeString(code: int): (r: Result<string, RangeError>)
    ensures r.Success? <==> 0 <= code <= 0xFFFF
    ensures code in CodeValues ==> r == Success(CodeValues[code])
    ensures 0 <= code <= 0xFFFF && code !in CodeValues ==> r == Success("CODE" + ToDecimal(code))
  {
    TextOf(Codes, code)
  }

  /** Code.value */
  function CodeValue(s: string): (r: int)
    ensures s in CodeStrings ==> r == CodeStrings[s]
    ensures r == -1 || 0 <= r <= 0xFFFF
  {
    ValueOf(Codes, s)
  }

  lemma CodeStringExamples()
    ensures CodeString(3) == Success("NSID")
    ensures CodeString(4) == Success("CODE4")
    ensures CodeString(0x10000).Failure?
  {
    assert ToDecimal(4) == "4" && 4 !in CodeValues && "CODE" + "4" == "CODE4";
  }

  /** Code.value reads the "CODE" prefix form of an unregistered code. */
  lemma CodeValuePrefix()
    ensures CodeValue("CODE4") == 4
  {
    assert "CODE4" !in CodeStrings;
    assert "CODE" <= "CODE4" && "CODE4"[4..] == "4" && "4"[..0] == "";
    assert ParseInt("4") == Some(4);
  }

  /** Code.value reads bare numbers, since the table allows numeric strings. */
  lemma CodeValueNumber()
    ensures CodeValue("42") == 42
  {
    assert "42" !in CodeStrings;
    assert "42"[..1] == "4";
    assert DigitsValue("42") == 42;
    assert ParseInt("42") == Some(42);
  }

  /** Code.value is case-sensitive: a registered name in another case is not found. */
  lemma CodeValueCaseSensitive()
    ensures CodeValue("nsid") == -1
  {
    assert "nsid" !in CodeStrings;
    assert "nsid"[0] == 'n' && !IsDigit("nsid"[0]);
    assert ParseInt("nsid") == None;
  }

  /** No registered option mnemonic starts with the prefix "CODE". */
  lemma NotACodeKey(t: string)
    requires |t| >= 5 && t[0] == 'C' && t[1] == 'O' && t[2] == 'D' && t[3] == 'E'
    ensures t !in CodeStrings
  {
  }

  /** The two static maps are inverse: every registered code's name is registered for that code. */
  lemma CodeTablesInverse(code: int)
    requires code in CodeValues
    ensures CodeValues[code] in CodeStrings && CodeStrings[CodeValues[code]] == code
  {
  }

  /** Every code in range renders to a text that Code.value reads back as that code. */
  lemma CodeRoundTrip(code: u16)
    ensures CodeString(code).Success? && CodeValue(CodeString(code).value) == code
  {
    if code in CodeValues {
      CodeTablesInverse(code);
    } else {
      var d := ToDecimal(code);
      ToDecimalDigits(code);
      NotACodeKey("CODE" + d);
      assert TableValid(Codes);
      UnmappedRoundTrip(Codes, code);
    }
  }

  /** EDNSOption.toString, given the class's own rendering of its body. */
  function Display<B>(o: EdnsOption<B>, render: (Kind, B) -> string): (r: string)
    ensures |r| >= 4 && r[0] == '{' && r[|r| - 1] == '}'
  {
    CodeRoundTrip(o.code);
    "{" + CodeString(o.code).value + ": " + render(o.kind, o.body) + "}"
  }
}
