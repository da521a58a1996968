/**
 * The library-wide option table: option names are case-insensitive (stored lower case), an
 * option set without a value holds "true", and the table can be filled from a comma-separated
 * option string such as "multiline,tsigfudge=300". The system property the string comes from
 * is a parameter here.
 */
module Options {
  import opened Base
  import opened Text

  /** The table: None before anything is set and after a clear, as the source's null map. */
  type Table = Option<map<string, string>>

  /** check/value: the value stored under the option's lower-case name. */
  function Lookup(t: Table, option: string): (r: Option<string>)
    ensures t.None? ==> r.None?
    ensures t.Some? ==> (r.Some? <==> Lower(option) in t.value) && (r.Some? ==> r.value == t.value[Lower(option)])
  {
    if t.Some? && Lower(option) in t.value then Some(t.value[Lower(option)]) else None
  }

  /** HashMap.put on the table, creating it first if it is null. */
  function Put(t: Table, key: string, value: string): Table {
    Some((if t.Some? then t.value else map[])[key := value])
  }

  /** HashMap.remove on the table; a null table stays null. */
  function Remove(t: Table, key: string): Table {
    if t.None? then None else Some(t.value - {key})
  }

  /** set(option): the option now holds "true", whatever the case it is named in; nothing else changes. */
  lemma SetLookup(t: Table, option: string, other: string)
    ensures Lookup(Put(t, Lower(option), "true"), other) ==
            if EqualsIgnoreCase(other, option) then Some("true") else Lookup(t, other)
  {
  }

  /** set(option, value): the option now holds the value in lower case; nothing else changes. */
  lemma SetValueLookup(t: Table, option: string, value: string, other: string)
    ensures Lookup(Put(t, Lower(option), Lower(value)), other) ==
            if EqualsIgnoreCase(other, option) then Some(Lower(value)) else Lookup(t, other)
  {
  }

  /** unset(option): only that option goes, and a null table is left alone. */
  lemma UnsetLookup(t: Table, option: string, other: string)
    ensures Lookup(Remove(t, Lower(option)), other) ==
            if EqualsIgnoreCase(other, option) then None else Lookup(t, other)
    ensures t.None? ==> Remove(t, Lower(option)) == None
  {
  }

  /** intValue: the value as an int when it parses and is positive, else -1. */
  function IntValue(t: Table, option: string): (r: int)
    ensures r == -1 || (r > 0 && Lookup(t, option).Some? && ParseInt(Lookup(t, option).value) == Some(r))
    ensures Lookup(t, option).Some? && ParseInt(Lookup(t, option).value).Some? && ParseInt(Lookup(t, option).value).value > 0
            ==> r == ParseInt(Lookup(t, option).value).value
  {
    match Lookup(t, option)
    case None => -1
    case Some(s) =>
      match ParseInt(s)
      case None => -1
      case Some(v) => if v > 0 then v else -1
  }

  /** multiline: the "multiline" option is set, that is, check("multiline") under another name. */
  function Multiline(t: Table): (r: bool)
    ensures r <==> Lookup(t, "multiline").Some?
  {
    assert Lower("multiline") == "multiline";
    t.Some? && "multiline" in t.value
  }

  // ---------------------------------------------------------------------------------------------
  // The option string

  /** A piece of the option string: non-empty and without a comma. */
  predicate Piece(p: string) {
    |p| > 0 && ',' !in p
  }

  /** StringTokenizer(s, ","): the non-empty pieces between commas, in order. */
  function SplitCommas(s: string): seq<string>
    decreases |s|
  {
    var n := IndexOfChar(s, ',');
    if n < 0 then (if s == "" then [] else [s])
    else (if n == 0 then [] else [s[..n]]) + SplitCommas(s[n + 1..])
  }

  /** Every piece the split yields is non-empty and free of commas. */
  lemma {:induction false} SplitPieces(s: string)
    ensures forall i :: 0 <= i < |SplitCommas(s)| ==> Piece(SplitCommas(s)[i])
    decreases |s|
  {
    var n := IndexOfChar(s, ',');
    if n >= 0 {
      var head := if n == 0 then [] else [s[..n]];
      var rest := SplitCommas(s[n + 1..]);
      SplitPieces(s[n + 1..]);
      assert SplitCommas(s) == head + rest;
      forall i | 0 <= i < |head + rest|
        ensures Piece((head + rest)[i])
      {
        if i < |head| {
          assert (head + rest)[i] == s[..n];
        } else {
          assert (head + rest)[i] == rest[i - |head|];
        }
      }
    } else if s != "" {
      assert SplitCommas(s) == [s];
    }
  }

  /** The pieces written back with a comma between each two. */
  function JoinCommas(pieces: seq<string>): string {
    if pieces == [] then ""
    else if |pieces| == 1 then pieces[0]
    else pieces[0] + "," + JoinCommas(pieces[1..])
  }

  /** Splitting gives back any list of non-empty, comma-free pieces it is given joined. */
  lemma {:induction false} SplitJoin(pieces: seq<string>)
    requires forall i :: 0 <= i < |pieces| ==> Piece(pieces[i])
    ensures SplitCommas(JoinCommas(pieces)) == pieces
    decreases |pieces|
  {
    if |pieces| == 1 {
      assert IndexOfChar(pieces[0], ',') == -1;
    } else if |pieces| > 1 {
      var p := pieces[0];
      var s := JoinCommas(pieces);
      assert s == p + "," + JoinCommas(pieces[1..]);
      assert s[|p|] == ',' && s[..|p|] == p;
      var n := IndexOfChar(s, ',');
      assert n == |p|;
      assert s[n + 1..] == JoinCommas(pieces[1..]);
      SplitJoin(pieces[1..]);
    }
  }

  /** Empty pieces are skipped: a leading comma changes nothing. */
  lemma SplitSkipsLeadingComma(s: string)
    ensures SplitCommas("," + s) == SplitCommas(s)
  {
    assert IndexOfChar("," + s, ',') == 0;
    assert ("," + s)[1..] == s;
  }

  /** One piece of the option string: "name" sets name, "name=value" sets name to value. */
  function Assign(t: Table, token: string): Table {
    var i := IndexOfChar(token, '=');
    if i == -1 then Put(t, Lower(token), "true") else Put(t, Lower(token[..i]), Lower(token[i + 1..]))
  }

  /** The pieces applied in order, the later winning. */
  function AssignAll(t: Table, tokens: seq<string>): Table {
    if tokens == [] then t else Assign(AssignAll(t, tokens[..|tokens| - 1]), tokens[|tokens| - 1])
  }

  /** Applying one more piece after the first i. */
  lemma AssignAllStep(t: Table, tokens: seq<string>, i: nat)
    requires i < |tokens|
    ensures AssignAll(t, tokens[..i + 1]) == Assign(AssignAll(t, tokens[..i]), tokens[i])
  {
    assert tokens[..i + 1][..i] == tokens[..i];
  }

  /** A piece without '=' sets that option to "true". */
  lemma AssignFlag(t: Table, token: string, other: string)
    requires '=' !in token
    ensures Lookup(Assign(t, token), other) == if EqualsIgnoreCase(other, token) then Some("true") else Lookup(t, other)
  {
  }

  /** A piece is split at its first '=': the name before it gets everything after it, '=' included. */
  lemma AssignPair(t: Table, name: string, value: string, other: string)
    requires '=' !in name
    ensures Lookup(Assign(t, name + "=" + value), other) ==
            if EqualsIgnoreCase(other, name) then Some(Lower(value)) else Lookup(t, other)
  {
    var token := name + "=" + value;
    var i := IndexOfChar(token, '=');
    assert token[|name|] == '=' && token[..|name|] == name;
    assert i == |name|;
    assert token[i + 1..] == value;
  }

  /** The option table, updated in place. */
  class OptionTable {
    var table: Table

    /** The static initialiser: the table as refresh builds it from the property. */
    constructor (property: Option<string>)
      ensures table == if property.Some? then AssignAll(None, SplitCommas(property.value)) else None
    {
      table := None;
      new;
      Refresh(property);
    }

    /** refresh: each piece of the option string is set in turn; the table is not cleared first. */
    method Refresh(property: Option<string>)
      modifies this`table
      ensures table == if property.Some? then AssignAll(old(table), SplitCommas(property.value)) else old(table)
    {
      if property.None? {
        return;
      }
      var tokens := SplitCommas(property.value);
      var i := 0;
      while i < |tokens|
        invariant 0 <= i <= |tokens|
        invariant table == AssignAll(old(table), tokens[..i])
      {
        AssignAllStep(old(table), tokens, i);
        var token := tokens[i];
        var index := IndexOfChar(token, '=');
        if index == -1 {
          Set(token);
        } else {
          SetValue(token[..index], token[index + 1..]);
        }
        i := i + 1;
      }
      assert tokens[..i] == tokens;
    }

    /** clear: every option is gone. */
    method Clear()
      modifies this`table
      ensures table == None
      ensures forall o :: Lookup(table, o).None?
    {
      table := None;
    }

    /** set(option) */
    method Set(option: string)
      modifies this`table
      ensures table == Put(old(table), Lower(option), "true")
      ensures Check(option) && Value(option) == Some("true")
    {
      table := Put(table, Lower(option), "true");
    }

    /** set(option, value) */
    method SetValue(option: string, value: string)
      modifies this`table
      ensures table == Put(old(table), Lower(option), Lower(value))
      ensures Value(option) == Some(Lower(value))
    {
      table := Put(table, Lower(option), Lower(value));
    }

    /** unset(option) */
    method Unset(option: string)
      modifies this`table
      ensures table == Remove(old(table), Lower(option))
      ensures !Check(option)
    {
      if table.None? {
        return;
      }
      table := Remove(table, Lower(option));
    }

    /** check(option): the option is set exactly when value(option) is not null. */
    function Check(option: string): (r: bool)
      reads this
      ensures r <==> Value(option).Some?
      ensures table.None? ==> !r
    {
      Lookup(table, option).Some?
    }

    /** value(option): what is stored under the option's lower-case name; null for a null table. */
    function Value(option: string): (r: Option<string>)
      reads this
      ensures table.None? ==> r.None?
      ensures table.Some? ==> (r.Some? <==> Lower(option) in table.value) && (r.Some? ==> r.value == table.value[Lower(option)])
    {
      Lookup(table, option)
    }
  }
}
