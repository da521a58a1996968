/**
 * The two-way registry between numeric codes and text mnemonics (Mnemonic.java).
 *
 * The lookups are pure functions over a snapshot of the table (`Table`); the class `Mnemonic`
 * holds the same fields as the Java object and updates its two maps in place.
 */
module Mnemonics {
  import opened Base
  import opened Text

  /** The case policy: CASE_SENSITIVE, CASE_UPPER or CASE_LOWER. */
  datatype WordCase = CaseSensitive | CaseUpper | CaseLower

  /** The IllegalArgumentException thrown by `check`: "<description> <value> is out of range". */
  datatype RangeError = OutOfRange(description: string, value: int)

  /** The IllegalArgumentException thrown by `addAll` when the case policies differ. */
  datatype MergeError = WordcasesDiffer(description: string)

  /** A snapshot of every field of a table. */
  datatype Table = Table(
    description: string,
    wordcase: WordCase,
    max: int,
    prefix: Option<string>,
    numericok: bool,
    strings: map<string, int>,
    values: map<int, string>)

  /** Converts a string to the table's case (Mnemonic.sanitize). */
  function Sanitize(wordcase: WordCase, s: string): (r: string)
    ensures |r| == |s| && EqualsIgnoreCase(r, s)
    ensures wordcase == CaseSensitive ==> r == s
  {
    match wordcase
    case CaseUpper => Upper(s)
    case CaseLower => Lower(s)
    case CaseSensitive => s
  }

  lemma SanitizeIdempotent(wordcase: WordCase, s: string)
    ensures Sanitize(wordcase, Sanitize(wordcase, s)) == Sanitize(wordcase, s)
  {
    CaseIdempotent(s);
  }

  lemma SanitizeAppend(wordcase: WordCase, a: string, b: string)
    ensures Sanitize(wordcase, a + b) == Sanitize(wordcase, a) + Sanitize(wordcase, b)
  {
    CaseAppend(a, b);
  }

  lemma SanitizeDigits(wordcase: WordCase, s: string)
    requires AllDigits(s)
    ensures Sanitize(wordcase, s) == s
  {
  }

  /** Every stored text, every reverse key and the prefix are in the table's case. */
  ghost predicate TableValid(t: Table) {
    && (forall s :: s in t.strings ==> Sanitize(t.wordcase, s) == s)
    && (forall v :: v in t.values ==> Sanitize(t.wordcase, t.values[v]) == t.values[v])
    && (t.prefix.Some? ==> Sanitize(t.wordcase, t.prefix.value) == t.prefix.value)
  }

  /** Mnemonic.check: the value must lie in [0, max]. */
  function CheckRange(t: Table, v: int): (r: Outcome<RangeError>)
    ensures r.Pass? <==> 0 <= v <= t.max
  {
    if v < 0 || v > t.max then Fail(OutOfRange(t.description, v)) else Pass
  }

  /** Mnemonic.parseNumeric: Integer.parseInt, kept only when the value lies in [0, max]. */
  function ParseNumeric(s: string, max: int): (r: int)
    ensures r == -1 || 0 <= r <= max
    ensures r != -1 ==> ParseInt(s) == Some(r)
    ensures ParseInt(s).Some? && 0 <= ParseInt(s).value <= max ==> r == ParseInt(s).value
  {
    match ParseInt(s)
    case Some(v) => if 0 <= v <= max then v else -1
    case None => -1
  }

  /** Mnemonic.getText: the canonical text, else the prefixed or plain decimal form. */
  function TextOf(t: Table, v: int): (r: Result<string, RangeError>)
    ensures r.Failure? <==> !(0 <= v <= t.max)
    ensures r.Success? && v in t.values ==> r.value == t.values[v]
    ensures r.Success? && v !in t.values ==>
      r.value == (if t.prefix.Some? then t.prefix.value + ToDecimal(v) else ToDecimal(v))
  {
    if CheckRange(t, v).Fail? then Failure(CheckRange(t, v).error)
    else if v in t.values then Success(t.values[v])
    else match t.prefix
      case Some(p) => Success(p + ToDecimal(v))
      case None => Success(ToDecimal(v))
  }

  /**
   * Mnemonic.getValue: never throws. After case conversion, the exact reverse lookup, then the
   * prefix-stripped number, then (when allowed) the whole string as a number; -1 if all fail.
   */
  function ValueOf(t: Table, s: string): (r: int)
    ensures Sanitize(t.wordcase, s) in t.strings ==> r == t.strings[Sanitize(t.wordcase, s)]
    ensures Sanitize(t.wordcase, s) !in t.strings && t.prefix.None? && !t.numericok ==> r == -1
    ensures var str := Sanitize(t.wordcase, s);
      var p := t.prefix;
      var stripped := if p.Some? && p.value <= str then ParseNumeric(str[|p.value|..], t.max) else -1;
      && (str !in t.strings && stripped >= 0 ==> r == stripped)
      && (str !in t.strings && stripped < 0 && t.numericok ==> r == ParseNumeric(str, t.max))
      && (str !in t.strings && stripped < 0 && !t.numericok ==> r == -1)
    ensures (forall x :: x in t.strings ==> 0 <= t.strings[x] <= t.max) ==> r == -1 || 0 <= r <= t.max
  {
    var str := Sanitize(t.wordcase, s);
    if str in t.strings then t.strings[str]
    else if t.prefix.Some? && t.prefix.value <= str && ParseNumeric(str[|t.prefix.value|..], t.max) >= 0 then
      ParseNumeric(str[|t.prefix.value|..], t.max)
    else if t.numericok then ParseNumeric(str, t.max)
    else -1
  }

  /** The table after `add(v, s)` has passed its range check. */
  function Added(t: Table, v: int, s: string): Table {
    var str := Sanitize(t.wordcase, s);
    t.(strings := t.strings[str := v], values := t.values[v := str])
  }

  /** The table after `addAlias(v, s)` has passed its range check. */
  function Aliased(t: Table, v: int, s: string): Table {
    t.(strings := t.strings[Sanitize(t.wordcase, s) := v])
  }

  /** The table after `remove(v)`: the canonical entry and every reverse entry naming v are gone. */
  function Removed(t: Table, v: int): Table {
    t.(values := t.values - {v},
       strings := map x | x in t.strings && t.strings[x] != v :: t.strings[x])
  }

  /** The table after `removeAlias(s)`. */
  function AliasRemoved(t: Table, s: string): Table {
    t.(strings := t.strings - {Sanitize(t.wordcase, s)})
  }

  /** The table after `addAll(source)` with matching case policies: the source wins collisions. */
  function Merged(t: Table, source: Table): Table {
    t.(strings := t.strings + source.strings, values := t.values + source.values)
  }

  // ---------------------------------------------------------------------------------------------
  // Properties of the lookups

  /** parseNumeric reads back the decimal rendering of every value in range. */
  lemma ParseNumericDecimal(n: nat, max: int)
    requires n <= max <= INT_MAX
    ensures ParseNumeric(ToDecimal(n), max) == n
  {
    ParseToDecimal(n, INT_MIN, INT_MAX);
  }

  /** Integer.parseInt accepts a sign, so "+42" and "-0" are numeric mnemonics too. */
  lemma ParseNumericSigned()
    ensures ParseNumeric("+42", 100) == 42
    ensures ParseNumeric("-0", 100) == 0
    ensures ParseNumeric("-1", 100) == -1
    ensures ParseNumeric("4x", 100) == -1
  {
    assert "+42"[1..] == "42" && "42"[..1] == "4" && "4"[..0] == "";
    assert DigitsValue("42") == 42;
    assert "-0"[1..] == "0" && "0"[..0] == "";
    assert DigitsValue("0") == 0;
    assert "-1"[1..] == "1";
    assert !IsDigit("4x"[1]);
  }

  /** Lookups apply the case policy first, so under CASE_UPPER (CASE_LOWER) case does not matter. */
  lemma CaseInsensitiveLookup(t: Table, s: string)
    ensures t.wordcase == CaseUpper ==> ValueOf(t, Upper(s)) == ValueOf(t, s)
    ensures t.wordcase == CaseLower ==> ValueOf(t, Lower(s)) == ValueOf(t, s)
  {
    CaseIdempotent(s);
  }

  /** A registered value whose canonical text still maps back to it survives the text round trip. */
  lemma MappedRoundTrip(t: Table, v: int)
    requires TableValid(t) && 0 <= v <= t.max
    requires v in t.values && t.values[v] in t.strings && t.strings[t.values[v]] == v
    ensures TextOf(t, v).Success? && ValueOf(t, TextOf(t, v).value) == v
  {
  }

  /**
   * An unregistered value in range is rendered as prefix + decimal (or bare decimal), and that
   * text is read back as the value, unless an alias has claimed exactly that text.
   */
  lemma UnmappedRoundTrip(t: Table, v: int)
    requires TableValid(t) && 0 <= v <= t.max <= INT_MAX && v !in t.values
    requires t.prefix.Some? || t.numericok
    requires TextOf(t, v).Success? ==> TextOf(t, v).value !in t.strings
    ensures TextOf(t, v).Success? && ValueOf(t, TextOf(t, v).value) == v
  {
    var d := ToDecimal(v);
    ToDecimalDigits(v);
    ParseNumericDecimal(v, t.max);
    SanitizeDigits(t.wordcase, d);
    match t.prefix
    case Some(p) =>
      SanitizeAppend(t.wordcase, p, d);
      assert (p + d)[|p|..] == d;
    case None =>
  }

  /**
   * The round trip fails when one text is registered for two values: add(1, "A") then add(2, "A")
   * leaves getText(1) == "A" but getValue("A") == 2.
   */
  lemma ReusedTextBreaksRoundTrip(t: Table)
    requires t.wordcase == CaseSensitive && t.max >= 2
    ensures var t' := Added(Added(t, 1, "A"), 2, "A");
            TextOf(t', 1) == Success("A") && ValueOf(t', "A") == 2
  {
  }

  // ---------------------------------------------------------------------------------------------
  // Properties of the updates

  /** After add(v, s): getText(v) is sanitize(s) and getValue(s) is v. */
  lemma AddedLookup(t: Table, v: int, s: string)
    requires 0 <= v <= t.max
    ensures TextOf(Added(t, v, s), v) == Success(Sanitize(t.wordcase, s))
    ensures ValueOf(Added(t, v, s), s) == v
  {
    SanitizeIdempotent(t.wordcase, s);
  }

  /** Re-adding a value keeps every earlier text of that value as a lookup alias. */
  lemma AddedKeepsAliases(t: Table, v: int, s: string, x: string)
    requires TableValid(t) && x in t.strings && t.strings[x] == v
    ensures ValueOf(Added(t, v, s), x) == v
  {
  }

  /** add keeps every text in the table's case. */
  lemma AddedValid(t: Table, v: int, s: string)
    requires TableValid(t)
    ensures TableValid(Added(t, v, s))
  {
    SanitizeIdempotent(t.wordcase, s);
  }

  /** After addAlias(v, s): getValue(s) is v and getText is unchanged for every value. */
  lemma AliasedLookup(t: Table, v: int, s: string, w: int)
    ensures ValueOf(Aliased(t, v, s), s) == v
    ensures TextOf(Aliased(t, v, s), w) == TextOf(t, w)
  {
    SanitizeIdempotent(t.wordcase, s);
  }

  lemma AliasedValid(t: Table, v: int, s: string)
    requires TableValid(t)
    ensures TableValid(Aliased(t, v, s))
  {
    SanitizeIdempotent(t.wordcase, s);
  }

  /**
   * After remove(v): no canonical entry and no reverse entry names v, and getText(v) falls back
   * to the numeric form.
   */
  lemma RemovedForgets(t: Table, v: int)
    requires 0 <= v <= t.max
    ensures v !in Removed(t, v).values
    ensures forall x :: x in Removed(t, v).strings ==> Removed(t, v).strings[x] != v
    ensures TextOf(Removed(t, v), v) ==
            Success(if t.prefix.Some? then t.prefix.value + ToDecimal(v) else ToDecimal(v))
  {
  }

  /** remove(v) leaves every other value's entries alone. */
  lemma RemovedKeepsOthers(t: Table, v: int, x: string, w: int)
    requires x in t.strings && t.strings[x] != v && w != v
    ensures x in Removed(t, v).strings && Removed(t, v).strings[x] == t.strings[x]
    ensures TextOf(Removed(t, v), w) == TextOf(t, w)
  {
  }

  /** After removeAlias(s), s is no longer an exact lookup key; getText is unchanged. */
  lemma AliasRemovedLookup(t: Table, s: string, w: int)
    ensures Sanitize(t.wordcase, s) !in AliasRemoved(t, s).strings
    ensures TextOf(AliasRemoved(t, s), w) == TextOf(t, w)
  {
  }

  /** After addAll(source): the source's reverse entries win, and its canonical texts win in range. */
  lemma MergedLookup(t: Table, source: Table, x: string, w: int)
    requires TableValid(source) && source.wordcase == t.wordcase
    requires x in source.strings && w in source.values && 0 <= w <= t.max
    ensures ValueOf(Merged(t, source), x) == source.strings[x]
    ensures TextOf(Merged(t, source), w) == Success(source.values[w])
  {
  }

  lemma MergedValid(t: Table, source: Table)
    requires TableValid(t) && TableValid(source) && source.wordcase == t.wordcase
    ensures TableValid(Merged(t, source))
  {
  }

  // ---------------------------------------------------------------------------------------------

  /** A mnemonic table whose two maps and settings are updated in place. */
  class Mnemonic {
    const description: string
    const wordcase: WordCase
    var strings: map<string, int>
    var values: map<int, string>
    var prefix: Option<string>
    var max: int
    var numericok: bool

    function Snapshot(): Table
      reads this
    {
      Table(description, wordcase, max, prefix, numericok, strings, values)
    }

    ghost predicate Valid()
      reads this
    {
      TableValid(Snapshot())
    }

    /** A new, empty table with maximum Integer.MAX_VALUE, no prefix and no numeric strings. */
    constructor (description: string, wordcase: WordCase)
      ensures Valid()
      ensures Snapshot() == Table(description, wordcase, INT_MAX, None, false, map[], map[])
    {
      this.description := description;
      this.wordcase := wordcase;
      strings := map[];
      values := map[];
      prefix := None;
      max := INT_MAX;
      numericok := false;
    }

    method SetMaximum(max: int)
      requires Valid()
      modifies this`max
      ensures Valid() && Snapshot() == old(Snapshot()).(max := max)
    {
      this.max := max;
    }

    /** The prefix is stored in the table's case. */
    method SetPrefix(prefix: string)
      requires Valid()
      modifies this`prefix
      ensures Valid() && Snapshot() == old(Snapshot()).(prefix := Some(Sanitize(wordcase, prefix)))
    {
      SanitizeIdempotent(wordcase, prefix);
      this.prefix := Some(Sanitize(wordcase, prefix));
    }

    method SetNumericAllowed(numeric: bool)
      requires Valid()
      modifies this`numericok
      ensures Valid() && Snapshot() == old(Snapshot()).(numericok := numeric)
    {
      numericok := numeric;
    }

    /** Mnemonic.getText: the canonical text of v, else its number with the prefix; out of range throws. */
    function GetText(v: int): (r: Result<string, RangeError>)
      reads this
      ensures r.Failure? <==> !(0 <= v <= max)
      ensures r.Success? && v in values ==> r.value == values[v]
      ensures r.Success? && v !in values ==> r.value == (if prefix.Some? then prefix.value + ToDecimal(v) else ToDecimal(v))
    {
      TextOf(Snapshot(), v)
    }

    /** Mnemonic.getValue: the value registered for the sanitised text, else as ValueOf reads it as a number. */
    function GetValue(s: string): (r: int)
      reads this
      ensures Sanitize(wordcase, s) in strings ==> r == strings[Sanitize(wordcase, s)]
      ensures Sanitize(wordcase, s) !in strings && prefix.None? && !numericok ==> r == -1
      ensures (forall x :: x in strings ==> 0 <= strings[x] <= max) ==> r == -1 || 0 <= r <= max
    {
      ValueOf(Snapshot(), s)
    }

    /** Mnemonic.add: range check first; a failed check changes nothing. */
    method Add(v: int, s: string) returns (r: Outcome<RangeError>)
      requires Valid()
      modifies this`strings, this`values
      ensures Valid()
      ensures r == CheckRange(old(Snapshot()), v)
      ensures r.Pass? ==> Snapshot() == Added(old(Snapshot()), v, s)
      ensures r.Fail? ==> Snapshot() == old(Snapshot())
      ensures r.Pass? ==> GetText(v) == Success(Sanitize(wordcase, s)) && GetValue(s) == v
      ensures r.Pass? ==> forall x :: x in old(strings) && old(strings)[x] == v ==> GetValue(x) == v
    {
      r := CheckRange(Snapshot(), v);
      if r.Fail? {
        return;
      }
      ghost var t := Snapshot();
      var str := Sanitize(wordcase, s);
      strings := strings[str := v];
      values := values[v := str];
      AddedValid(t, v, s);
      AddedLookup(t, v, s);
      forall x | x in t.strings && t.strings[x] == v
        ensures GetValue(x) == v
      {
        AddedKeepsAliases(t, v, s, x);
      }
    }

    /** Mnemonic.remove: the canonical entry and every alias of v (the removeIf) go. */
    method Remove(v: int)
      requires Valid()
      modifies this`strings, this`values
      ensures Valid() && Snapshot() == Removed(old(Snapshot()), v)
      ensures v !in values && forall x :: x in strings ==> strings[x] != v
    {
      values := values - {v};
      strings := map x | x in strings && strings[x] != v :: strings[x];
    }

    /** Mnemonic.addAlias: range check first; getText is not affected. */
    method AddAlias(v: int, s: string) returns (r: Outcome<RangeError>)
      requires Valid()
      modifies this`strings
      ensures Valid()
      ensures r == CheckRange(old(Snapshot()), v)
      ensures r.Pass? ==> Snapshot() == Aliased(old(Snapshot()), v, s)
      ensures r.Fail? ==> Snapshot() == old(Snapshot())
      ensures r.Pass? ==> GetValue(s) == v && forall w :: GetText(w) == old(GetText(w))
    {
      r := CheckRange(Snapshot(), v);
      if r.Fail? {
        return;
      }
      ghost var t := Snapshot();
      strings := strings[Sanitize(wordcase, s) := v];
      AliasedValid(t, v, s);
      forall w ensures GetText(w) == TextOf(t, w) {
        AliasedLookup(t, v, s, w);
      }
      AliasedLookup(t, v, s, 0);
    }

    /** Mnemonic.removeAlias. */
    method RemoveAlias(s: string)
      requires Valid()
      modifies this`strings
      ensures Valid() && Snapshot() == AliasRemoved(old(Snapshot()), s)
    {
      strings := strings - {Sanitize(wordcase, s)};
    }

    /** Mnemonic.addAll: fails when the case policies differ, otherwise both maps become unions. */
    method AddAll(source: Mnemonic) returns (r: Outcome<MergeError>)
      requires Valid() && source.Valid()
      modifies this`strings, this`values
      ensures Valid()
      ensures r.Pass? <==> wordcase == source.wordcase
      ensures r.Pass? ==> Snapshot() == Merged(old(Snapshot()), old(source.Snapshot()))
      ensures r.Fail? ==> Snapshot() == old(Snapshot())
    {
      if wordcase != source.wordcase {
        return Fail(WordcasesDiffer(source.description));
      }
      ghost var t, src := Snapshot(), source.Snapshot();
      strings := strings + source.strings;
      values := values + source.values;
      MergedValid(t, src);
      r := Pass;
    }
  }
}
