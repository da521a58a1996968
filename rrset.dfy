/**
 * A set of records with one owner name, type and class, plus the RRSIG records signing them.
 * Its TTL follows section 5.2 of RFC 2181: every member carries the lowest TTL added since the set
 * was last empty.
 */
module RRsets {
  import opened Base
  import opened Records

  const SHORT_MAX: int := 0x7FFF

  /** The exceptions of this component. */
  datatype RRsetError =
    | RecordDoesNotMatch   // IllegalArgumentException "record does not match rrset"
    | RRsetIsEmpty         // IllegalStateException "rrset is empty"

  // ---------------------------------------------------------------------------------------------
  // Lists of records

  /** Every record of the list, re-TTL'd. */
  function AllWithTtl(rs: seq<Record>, ttl: int): (out: seq<Record>)
    ensures |out| == |rs|
    ensures forall i :: 0 <= i < |rs| ==> out[i] == WithTtl(rs[i], ttl)
  {
    seq(|rs|, i requires 0 <= i < |rs| => WithTtl(rs[i], ttl))
  }

  /** List.contains under Record.equals, which ignores the TTL. */
  predicate HasEqual(rs: seq<Record>, r: Record) {
    exists i :: 0 <= i < |rs| && SameData(rs[i], r)
  }

  /** No two elements of the list are equal records. */
  ghost predicate Distinct(rs: seq<Record>) {
    forall i, j :: 0 <= i < j < |rs| ==> !SameData(rs[i], rs[j])
  }

  /** Every element carries the TTL. */
  ghost predicate TtlIs(rs: seq<Record>, ttl: int) {
    forall i :: 0 <= i < |rs| ==> rs[i].ttl == ttl
  }

  /** Every element belongs to the RRset identified by k. */
  ghost predicate KeysAre(rs: seq<Record>, k: (Name, int, int)) {
    forall i :: 0 <= i < |rs| ==> Key(rs[i]) == k
  }

  /** `if (!rs.contains(copy)) rs.add(copy)` */
  function AppendNew(rs: seq<Record>, r: Record): seq<Record> {
    if HasEqual(rs, r) then rs else rs + [r]
  }

  /** List.indexOf under Record.equals: the first equal element, or |rs| when there is none. */
  function IndexOf(rs: seq<Record>, r: Record): (i: nat)
    ensures i <= |rs|
    decreases |rs|
  {
    if rs == [] then 0
    else if SameData(rs[0], r) then 0
    else 1 + IndexOf(rs[1..], r)
  }

  /** List.remove(Object): drops the first element equal to r, if any. */
  function RemoveFirst(rs: seq<Record>, r: Record): seq<Record> {
    var i := IndexOf(rs, r);
    if i < |rs| then rs[..i] + rs[i + 1..] else rs
  }

  /** IndexOf finds the first equal element, and finds none exactly when there is none. */
  lemma {:induction false} IndexOfFirst(rs: seq<Record>, r: Record)
    ensures IndexOf(rs, r) < |rs| <==> HasEqual(rs, r)
    ensures IndexOf(rs, r) < |rs| ==> SameData(rs[IndexOf(rs, r)], r)
    ensures forall j :: 0 <= j < IndexOf(rs, r) ==> !SameData(rs[j], r)
    decreases |rs|
  {
    if rs != [] && !SameData(rs[0], r) {
      var tail := rs[1..];
      IndexOfFirst(tail, r);
      if HasEqual(rs, r) {
        var k :| 0 <= k < |rs| && SameData(rs[k], r);
        assert SameData(tail[k - 1], r);
      }
      if HasEqual(tail, r) {
        var k :| 0 <= k < |tail| && SameData(tail[k], r);
        assert SameData(rs[k + 1], r);
      }
      forall j | 0 <= j < IndexOf(rs, r) ensures !SameData(rs[j], r) {
        if j > 0 { assert rs[j] == tail[j - 1]; }
      }
    }
  }

  /** Removal keeps the list free of duplicates and leaves no record equal to the removed one. */
  lemma RemoveFirstKeeps(rs: seq<Record>, r: Record)
    requires Distinct(rs)
    ensures Distinct(RemoveFirst(rs, r)) && !HasEqual(RemoveFirst(rs, r), r)
    ensures |RemoveFirst(rs, r)| == if HasEqual(rs, r) then |rs| - 1 else |rs|
    ensures forall j :: 0 <= j < |RemoveFirst(rs, r)| ==> RemoveFirst(rs, r)[j] in rs
  {
    IndexOfFirst(rs, r);
    var i := IndexOf(rs, r);
    var out := RemoveFirst(rs, r);
    if i < |rs| {
      assert forall k :: 0 <= k < |out| ==> out[k] == rs[if k < i then k else k + 1];
      forall k | 0 <= k < |out| ensures !SameData(out[k], r) {
        if k >= i {
          assert !SameData(rs[i], rs[k + 1]);
        }
      }
    } else {
      forall k | 0 <= k < |out| ensures !SameData(out[k], r) {
        assert !HasEqual(rs, r);
      }
    }
  }

  /** The list rotated to start at index s. */
  function Rotate(rs: seq<Record>, s: nat): seq<Record>
    requires s <= |rs|
  {
    rs[s..] + rs[..s]
  }

  /** Rotation is a permutation: the same records, each as often. */
  lemma RotateIsPermutation(rs: seq<Record>, s: nat)
    requires s <= |rs|
    ensures multiset(Rotate(rs, s)) == multiset(rs)
    ensures |Rotate(rs, s)| == |rs|
  {
    assert rs == rs[..s] + rs[s..];
  }

  /** Position j of the rotation holds element s + j of the stored order, wrapping past the end. */
  lemma RotateOrder(rs: seq<Record>, s: nat)
    requires s <= |rs|
    ensures forall j :: 0 <= j < |rs| - s ==> Rotate(rs, s)[j] == rs[s + j]
    ensures forall j :: |rs| - s <= j < |rs| ==> Rotate(rs, s)[j] == rs[j - (|rs| - s)]
  {
  }

  // ---------------------------------------------------------------------------------------------
  // The abstract value of an RRset

  /** The two lists and the set TTL. */
  datatype Lists = Lists(rrs: seq<Record>, sigs: seq<Record>, ttl: int)

  const Empty: Lists := Lists([], [], 0)

  predicate IsEmptyLists(s: Lists) {
    s.rrs == [] && s.sigs == []
  }

  /** RRset.first on the value: the first data record, else the first signature. */
  function Anchor(s: Lists): Record
    requires !IsEmptyLists(s)
  {
    if s.rrs != [] then s.rrs[0] else s.sigs[0]
  }

  /**
   * Data records are not signatures and signatures are; every member carries the set TTL and
   * belongs to the RRset of the first member; no list holds a record twice.
   */
  ghost predicate ValidLists(s: Lists) {
    && KindsAre(s.rrs, false) && KindsAre(s.sigs, true)
    && TtlIs(s.rrs, s.ttl) && TtlIs(s.sigs, s.ttl)
    && Distinct(s.rrs) && Distinct(s.sigs)
    && (!IsEmptyLists(s) ==> KeysAre(s.rrs, Key(Anchor(s))) && KeysAre(s.sigs, Key(Anchor(s))))
  }

  /** checkSameRRset against both lists: each must be empty or match r at its first element. */
  predicate Accepts(s: Lists, r: Record) {
    (s.rrs == [] || SameRRset(r, s.rrs[0])) && (s.sigs == [] || SameRRset(r, s.sigs[0]))
  }

  /**
   * The private addRR(r, rs) on the value: into an empty set the record goes as it is and sets the
   * TTL; otherwise it must match both lists, all members take the lower of the two TTLs, and the
   * record, carrying that TTL, is appended to its list unless an equal record is there.
   */
  function Added(s: Lists, r: Record): (a: Result<Lists, RRsetError>)
    ensures a.Failure? <==> !IsEmptyLists(s) && !Accepts(s, r)
  {
    if IsEmptyLists(s) then
      Success(if IsSig(r) then Lists([], [r], r.ttl) else Lists([r], [], r.ttl))
    else if !Accepts(s, r) then
      Failure(RecordDoesNotMatch)
    else
      var t := if r.ttl < s.ttl then r.ttl else s.ttl;
      var rrs := AllWithTtl(s.rrs, t);
      var sigs := AllWithTtl(s.sigs, t);
      if IsSig(r) then Success(Lists(rrs, AppendNew(sigs, WithTtl(r, t)), t))
      else Success(Lists(AppendNew(rrs, WithTtl(r, t)), sigs, t))
  }

  /** deleteRR on the value: the first equal record leaves the list the record's kind selects. */
  function Deleted(s: Lists, r: Record): (d: Lists)
    ensures d.ttl == s.ttl
    ensures IsSig(r) ==> d.rrs == s.rrs
    ensures !IsSig(r) ==> d.sigs == s.sigs
    ensures var l, l' := (if IsSig(r) then s.sigs else s.rrs), (if IsSig(r) then d.sigs else d.rrs);
            multiset(l') <= multiset(l) && |l'| == if IndexOf(l, r) < |l| then |l| - 1 else |l|
  {
    var l := if IsSig(r) then s.sigs else s.rrs;
    var i := IndexOf(l, r);
    assert i < |l| ==> l == l[..i] + [l[i]] + l[i + 1..];
    if IsSig(r) then s.(sigs := RemoveFirst(s.sigs, r)) else s.(rrs := RemoveFirst(s.rrs, r))
  }

  /** In a valid non-empty set, compatibility with both lists is compatibility with the first member. */
  lemma AcceptsMeansSameRRset(s: Lists, r: Record)
    requires ValidLists(s) && !IsEmptyLists(s)
    ensures Accepts(s, r) <==> Key(r) == Key(Anchor(s))
  {
    if s.rrs == [] {
      assert Key(s.sigs[0]) == Key(Anchor(s));
    }
  }

  /** Every element is a signature exactly when `sig` holds. */
  ghost predicate KindsAre(rs: seq<Record>, sig: bool) {
    forall i :: 0 <= i < |rs| ==> IsSig(rs[i]) == sig
  }

  /** Re-TTL'ing keeps every record's data, kind and RRset, and the set of contained records. */
  lemma AllWithTtlKeeps(rs: seq<Record>, t: int)
    ensures Distinct(rs) ==> Distinct(AllWithTtl(rs, t))
    ensures TtlIs(AllWithTtl(rs, t), t)
    ensures forall k :: KeysAre(rs, k) ==> KeysAre(AllWithTtl(rs, t), k)
    ensures forall sig :: KindsAre(rs, sig) ==> KindsAre(AllWithTtl(rs, t), sig)
    ensures forall x :: HasEqual(rs, x) <==> HasEqual(AllWithTtl(rs, t), x)
  {
    var out := AllWithTtl(rs, t);
    forall x
      ensures HasEqual(rs, x) <==> HasEqual(out, x)
    {
      if HasEqual(rs, x) {
        var i :| 0 <= i < |rs| && SameData(rs[i], x);
        assert SameData(out[i], x);
      }
      if HasEqual(out, x) {
        var i :| 0 <= i < |out| && SameData(out[i], x);
        assert SameData(rs[i], x);
      }
    }
  }

  /** A list whose members all carry the TTL is unchanged by re-TTL'ing it to that TTL. */
  lemma AllWithTtlSame(rs: seq<Record>, t: int)
    requires TtlIs(rs, t)
    ensures AllWithTtl(rs, t) == rs
  {
  }

  /** Appending a record only when absent keeps the list duplicate-free and loses nothing. */
  lemma AppendNewKeeps(rs: seq<Record>, r: Record)
    ensures Distinct(rs) ==> Distinct(AppendNew(rs, r))
    ensures HasEqual(AppendNew(rs, r), r)
    ensures forall x :: HasEqual(rs, x) ==> HasEqual(AppendNew(rs, r), x)
  {
    if !HasEqual(rs, r) {
      var out := rs + [r];
      assert SameData(out[|rs|], r);
      forall x | HasEqual(rs, x) ensures HasEqual(out, x) {
        var i :| 0 <= i < |rs| && SameData(rs[i], x);
        assert SameData(out[i], x);
      }
    }
  }

  /** Appending a record of the same kind, RRset and TTL keeps those uniform over the list. */
  lemma AppendNewUniform(rs: seq<Record>, c: Record, k: (Name, int, int), sig: bool, t: int)
    requires KeysAre(rs, k) && KindsAre(rs, sig) && TtlIs(rs, t)
    requires Key(c) == k && IsSig(c) == sig && c.ttl == t
    ensures KeysAre(AppendNew(rs, c), k) && KindsAre(AppendNew(rs, c), sig) && TtlIs(AppendNew(rs, c), t)
  {
  }

  /** A successful add keeps the set valid. */
  lemma AddedValid(s: Lists, r: Record)
    requires ValidLists(s) && Added(s, r).Success?
    ensures ValidLists(Added(s, r).value)
  {
    var a := Added(s, r).value;
    if !IsEmptyLists(s) {
      var k := Key(Anchor(s));
      AcceptsMeansSameRRset(s, r);
      var t := a.ttl;
      var c := WithTtl(r, t);
      AllWithTtlKeeps(s.rrs, t);
      AllWithTtlKeeps(s.sigs, t);
      var rrs, sigs := AllWithTtl(s.rrs, t), AllWithTtl(s.sigs, t);
      if IsSig(r) {
        AppendNewKeeps(sigs, c);
        AppendNewUniform(sigs, c, k, true, t);
        assert a.rrs == rrs && a.sigs == AppendNew(sigs, c);
      } else {
        AppendNewKeeps(rrs, c);
        AppendNewUniform(rrs, c, k, false, t);
        assert a.rrs == AppendNew(rrs, c) && a.sigs == sigs;
      }
      assert KeysAre(a.rrs, k) && KeysAre(a.sigs, k);
      assert Key(Anchor(a)) == k by {
        if a.rrs != [] { assert Key(a.rrs[0]) == k; } else { assert Key(a.sigs[0]) == k; }
      }
    }
  }

  /**
   * What an add promises: the record has an equal in the list its kind selects, nothing already
   * there is lost, and the set TTL is the record's into an empty set and otherwise the lower of
   * the two, so it never rises while the set is non-empty.
   */
  lemma AddedEffect(s: Lists, r: Record)
    requires Added(s, r).Success?
    ensures HasEqual(if IsSig(r) then Added(s, r).value.sigs else Added(s, r).value.rrs, r)
    ensures forall x :: HasEqual(s.rrs, x) ==> HasEqual(Added(s, r).value.rrs, x)
    ensures forall x :: HasEqual(s.sigs, x) ==> HasEqual(Added(s, r).value.sigs, x)
    ensures Added(s, r).value.ttl == if IsEmptyLists(s) || r.ttl < s.ttl then r.ttl else s.ttl
    ensures !IsEmptyLists(s) ==> Added(s, r).value.ttl <= s.ttl
    ensures !IsEmptyLists(Added(s, r).value)
  {
    var a := Added(s, r).value;
    if IsEmptyLists(s) {
      if IsSig(r) { assert SameData(a.sigs[0], r); } else { assert SameData(a.rrs[0], r); }
    } else {
      var t := a.ttl;
      AllWithTtlKeeps(s.rrs, t);
      AllWithTtlKeeps(s.sigs, t);
      AppendNewKeeps(AllWithTtl(s.rrs, t), WithTtl(r, t));
      AppendNewKeeps(AllWithTtl(s.sigs, t), WithTtl(r, t));
      if IsSig(r) {
        var i :| 0 <= i < |a.sigs| && SameData(a.sigs[i], WithTtl(r, t));
        assert SameData(a.sigs[i], r);
      } else {
        var i :| 0 <= i < |a.rrs| && SameData(a.rrs[i], WithTtl(r, t));
        assert SameData(a.rrs[i], r);
      }
    }
  }

  /** Adding a record a second time changes nothing. */
  lemma AddedIdempotent(s: Lists, r: Record)
    requires ValidLists(s) && Added(s, r).Success?
    ensures Added(Added(s, r).value, r) == Added(s, r)
  {
    var a := Added(s, r).value;
    AddedValid(s, r);
    AddedEffect(s, r);
    AcceptsMeansSameRRset(a, r);
    assert Key(r) == Key(Anchor(a)) by {
      var l := if IsSig(r) then a.sigs else a.rrs;
      var i :| 0 <= i < |l| && SameData(l[i], r);
      assert Key(l[i]) == Key(r);
      if IsSig(r) { assert KeysAre(a.sigs, Key(Anchor(a))); } else { assert KeysAre(a.rrs, Key(Anchor(a))); }
    }
    AllWithTtlSame(a.rrs, a.ttl);
    AllWithTtlSame(a.sigs, a.ttl);
    var c := WithTtl(r, a.ttl);
    if IsSig(r) {
      var i :| 0 <= i < |a.sigs| && SameData(a.sigs[i], r);
      assert SameData(a.sigs[i], c);
    } else {
      var i :| 0 <= i < |a.rrs| && SameData(a.rrs[i], r);
      assert SameData(a.rrs[i], c);
    }
  }

  /** A deletion keeps the set valid and leaves no record equal to the deleted one in its list. */
  lemma DeletedValid(s: Lists, r: Record)
    requires ValidLists(s)
    ensures ValidLists(Deleted(s, r))
    ensures !HasEqual(if IsSig(r) then Deleted(s, r).sigs else Deleted(s, r).rrs, r)
  {
    var d := Deleted(s, r);
    RemoveFirstKeeps(s.rrs, r);
    RemoveFirstKeeps(s.sigs, r);
    if !IsEmptyLists(d) {
      var k := Key(Anchor(s));
      assert Anchor(d) in s.rrs || Anchor(d) in s.sigs;
      assert Key(Anchor(d)) == k;
    }
  }

  /** Adding records one after another, stopping at the first failure. */
  function AddedAll(s: Lists, records: seq<Record>): Result<Lists, RRsetError>
    decreases |records|
  {
    if records == [] then Success(s)
    else
      match AddedAll(s, records[..|records| - 1])
      case Failure(e) => Failure(e)
      case Success(p) => Added(p, records[|records| - 1])
  }

  /** The lowest TTL of a non-empty list of records. */
  function MinTtl(records: seq<Record>): int
    requires records != []
    decreases |records|
  {
    if |records| == 1 then records[0].ttl
    else
      var m := MinTtl(records[..|records| - 1]);
      var t := records[|records| - 1].ttl;
      if t < m then t else m
  }

  /**
   * RRset(Record...) from an empty set: it succeeds exactly when every record belongs to the RRset
   * of the first, and then the set is valid, belongs to that RRset and carries the lowest TTL
   * among the records.
   */
  lemma {:induction false} AddedAllFromEmpty(records: seq<Record>)
    ensures AddedAll(Empty, records).Success? <==>
              forall i :: 0 <= i < |records| ==> SameRRset(records[i], records[0])
    ensures AddedAll(Empty, records).Success? ==>
              var s := AddedAll(Empty, records).value;
              && ValidLists(s)
              && (records != [] ==> !IsEmptyLists(s) && Key(Anchor(s)) == Key(records[0]) && s.ttl == MinTtl(records))
    decreases |records|
  {
    if records != [] {
      var n := |records|;
      var init, r := records[..n - 1], records[n - 1];
      AddedAllFromEmpty(init);
      assert forall i :: 0 <= i < n - 1 ==> init[i] == records[i];
      if AddedAll(Empty, init).Success? {
        var p := AddedAll(Empty, init).value;
        if init == [] {
          assert r == records[0];
          AddedValid(p, r);
        } else {
          assert init[0] == records[0];
          AddedStep(p, r);
          if Added(p, r).Failure? {
            assert !SameRRset(records[n - 1], records[0]);
          }
        }
      } else {
        var i :| 0 <= i < n - 1 && !SameRRset(init[i], init[0]);
        assert !SameRRset(records[i], records[0]);
      }
    }
  }

  /** One add to a valid non-empty set: it succeeds exactly for a record of the set's RRset. */
  lemma AddedStep(p: Lists, r: Record)
    requires ValidLists(p) && !IsEmptyLists(p)
    ensures Added(p, r).Success? <==> Key(r) == Key(Anchor(p))
    ensures Added(p, r).Success? ==>
              ValidLists(Added(p, r).value) && !IsEmptyLists(Added(p, r).value)
              && Key(Anchor(Added(p, r).value)) == Key(Anchor(p))
              && Added(p, r).value.ttl == if r.ttl < p.ttl then r.ttl else p.ttl
  {
    AcceptsMeansSameRRset(p, r);
    if Added(p, r).Success? {
      AddedValid(p, r);
      var a := Added(p, r).value;
      var t := a.ttl;
      AllWithTtlKeeps(p.rrs, t);
      AllWithTtlKeeps(p.sigs, t);
      if a.rrs != [] {
        assert p.rrs != [] ==> a.rrs[0] == WithTtl(p.rrs[0], t);
        assert Key(a.rrs[0]) == Key(Anchor(p)) by {
          if p.rrs == [] { assert a.rrs[0] == WithTtl(r, t); }
        }
      } else {
        assert p.sigs != [] ==> a.sigs[0] == WithTtl(p.sigs[0], t);
        assert Key(a.sigs[0]) == Key(Anchor(p));
      }
    }
  }

  /** List.contains on the list the record's kind selects (an equal is found; see IndexOfFirst). */
  predicate InItsList(s: Lists, r: Record) {
    var list := if IsSig(r) then s.sigs else s.rrs;
    IndexOf(list, r) < |list|
  }

  /** One more record added after a successful prefix: it and every earlier record are in their lists. */
  lemma AddedAllLast(records: seq<Record>, x: Record)
    requires records != [] && AddedAll(Empty, records).Success?
    ensures AddedAll(Empty, records[..|records| - 1]).Success?
    ensures InItsList(AddedAll(Empty, records).value, records[|records| - 1])
    ensures InItsList(AddedAll(Empty, records[..|records| - 1]).value, x) ==> InItsList(AddedAll(Empty, records).value, x)
  {
    var p := AddedAll(Empty, records[..|records| - 1]).value;
    var r := records[|records| - 1];
    var q := Added(p, r).value;
    AddedEffect(p, r);
    IndexOfFirst(if IsSig(r) then q.sigs else q.rrs, r);
    IndexOfFirst(if IsSig(x) then p.sigs else p.rrs, x);
    IndexOfFirst(if IsSig(x) then q.sigs else q.rrs, x);
  }

  /** The i-th record added from an empty set has an equal in the list its kind selects. */
  lemma {:induction false} AddedAllContainsAt(records: seq<Record>, i: nat)
    requires AddedAll(Empty, records).Success? && i < |records|
    ensures InItsList(AddedAll(Empty, records).value, records[i])
    decreases |records|
  {
    var n := |records|;
    AddedAllLast(records, records[i]);
    if i < n - 1 {
      var init := records[..n - 1];
      assert records[i] == init[i];
      AddedAllContainsAt(init, i);
    }
  }

  /** Every record added from an empty set has an equal in the list its kind selects. */
  lemma AddedAllContains(records: seq<Record>)
    requires AddedAll(Empty, records).Success?
    ensures forall i :: 0 <= i < |records| ==> InItsList(AddedAll(Empty, records).value, records[i])
  {
    forall i | 0 <= i < |records|
      ensures InItsList(AddedAll(Empty, records).value, records[i])
    {
      AddedAllContainsAt(records, i);
    }
  }

  /** Once a prefix of the records fails, so do the records. */
  lemma {:induction false} AddedAllFailureSticks(s: Lists, records: seq<Record>, k: nat)
    requires k <= |records| && AddedAll(s, records[..k]).Failure?
    ensures AddedAll(s, records).Failure?
    decreases |records| - k
  {
    if k < |records| {
      var next := records[..k + 1];
      assert next[..k] == records[..k];
      AddedAllFailureSticks(s, records, k + 1);
    } else {
      assert records[..k] == records;
    }
  }

  // ---------------------------------------------------------------------------------------------

  class RRset {
    var rrs: seq<Record>
    var sigs: seq<Record>
    var position: int
    var ttl: int

    /** The abstract value: both lists and the TTL. */
    function State(): Lists
      reads this
    {
      Lists(rrs, sigs, ttl)
    }

    /** The lists are valid and the cursor fits a Java short. */
    ghost predicate Valid()
      reads this
    {
      ValidLists(State()) && 0 <= position <= SHORT_MAX
    }

    /** RRset.isEmpty: neither data nor signatures. */
    function IsEmpty(): (b: bool)
      reads this
      ensures b <==> Size() == 0 && SigSize() == 0
    {
      rrs == [] && sigs == []
    }

    /** RRset.size: the number of data records only. */
    function Size(): (n: nat)
      reads this
      ensures n == |rrs|
    {
      |rrs|
    }

    /** RRset.sigSize */
    function SigSize(): (n: nat)
      reads this
      ensures n == |sigs|
    {
      |sigs|
    }

    /** RRset(): an empty set. */
    constructor ()
      ensures Valid() && State() == Empty && position == 0
    {
      rrs := [];
      sigs := [];
      position := 0;
      ttl := 0;
    }

    /** RRset(Record): the record alone, stored unchanged. */
    constructor FromRecord(r: Record)
      ensures Valid() && State() == Added(Empty, r).value && position == 0
      ensures State() == if IsSig(r) then Lists([], [r], r.ttl) else Lists([r], [], r.ttl)
    {
      rrs := [];
      sigs := [];
      position := 0;
      ttl := 0;
      new;
      var res := AddRR(r);
    }

    /** RRset(RRset): an independent copy of both lists, the cursor and the TTL. */
    constructor Copy(other: RRset)
      requires other.Valid()
      ensures Valid() && State() == other.State() && position == other.position
    {
      rrs := other.rrs;
      sigs := other.sigs;
      position := other.position;
      ttl := other.ttl;
    }

    /**
     * RRset(Record...) and RRset(Iterable): the records added in order. The first one that does
     * not match throws, and the partly built set is lost.
     */
    static method FromRecords(records: seq<Record>) returns (res: Result<RRset, RRsetError>)
      ensures res.Success? <==> forall i :: 0 <= i < |records| ==> SameRRset(records[i], records[0])
      ensures res.Success? ==>
                fresh(res.value) && res.value.Valid() && res.value.position == 0
                && AddedAll(Empty, records) == Success(res.value.State())
    {
      var acc := new RRset();
      var i := 0;
      AddedAllFromEmpty(records);
      while i < |records|
        invariant 0 <= i <= |records|
        invariant fresh(acc) && acc.Valid() && acc.position == 0
        invariant AddedAll(Empty, records[..i]) == Success(acc.State())
      {
        assert records[..i + 1][..i] == records[..i];
        var r := acc.AddRR(records[i]);
        if r.Fail? {
          AddedAllFailureSticks(Empty, records, i + 1);
          return Failure(r.error);
        }
        i := i + 1;
      }
      assert records[..i] == records;
      return Success(acc);
    }

    /** RRset.adjustTtl: each element replaced, in place, by a copy carrying the TTL. */
    static method AdjustTtl(ttl: int, rs: seq<Record>) returns (out: seq<Record>)
      ensures out == AllWithTtl(rs, ttl)
    {
      out := rs;
      var i := 0;
      while i < |out|
        invariant 0 <= i <= |out| == |rs|
        invariant forall j :: 0 <= j < i ==> out[j] == WithTtl(rs[j], ttl)
        invariant forall j :: i <= j < |out| ==> out[j] == rs[j]
      {
        var tmp := WithTtl(out[i], ttl);
        out := out[i := tmp];
        i := i + 1;
      }
    }

    /**
     * The private addRR(r, rs), with rs the list r's kind selects. A record with a higher TTL is
     * stored as a lowered copy; a lower TTL re-TTLs every member in place.
     */
    method AddTo(r: Record, toSigs: bool) returns (res: Outcome<RRsetError>)
      requires Valid() && toSigs == IsSig(r)
      modifies this`rrs, this`sigs, this`ttl
      ensures Valid()
      ensures res.Fail? <==> Added(old(State()), r).Failure?
      ensures res.Fail? ==> res.error == RecordDoesNotMatch && State() == old(State())
      ensures res.Pass? ==> State() == Added(old(State()), r).value
    {
      ghost var s := State();
      if sigs == [] && rrs == [] {
        if toSigs { sigs := [r]; } else { rrs := [r]; }
        ttl := r.ttl;
        AddedValid(s, r);
        return Pass;
      }
      if !Accepts(State(), r) {
        return Fail(RecordDoesNotMatch);
      }
      var copy := r;
      if r.ttl > ttl {
        copy := WithTtl(r, ttl);
        AllWithTtlSame(rrs, ttl);
        AllWithTtlSame(sigs, ttl);
      } else if r.ttl < ttl {
        ttl := r.ttl;
        rrs := AdjustTtl(r.ttl, rrs);
        sigs := AdjustTtl(r.ttl, sigs);
      } else {
        AllWithTtlSame(rrs, ttl);
        AllWithTtlSame(sigs, ttl);
      }
      if toSigs {
        if !HasEqual(sigs, copy) { sigs := sigs + [copy]; }
      } else {
        if !HasEqual(rrs, copy) { rrs := rrs + [copy]; }
      }
      AddedValid(s, r);
      res := Pass;
    }

    /** addRR(Record): signatures go to the signature list, everything else to the data list. */
    method AddRR(r: Record) returns (res: Outcome<RRsetError>)
      requires Valid()
      modifies this`rrs, this`sigs, this`ttl
      ensures Valid()
      ensures res.Fail? <==> Added(old(State()), r).Failure?
      ensures res.Fail? ==> res.error == RecordDoesNotMatch && State() == old(State())
      ensures res.Pass? ==> State() == Added(old(State()), r).value
    {
      res := AddTo(r, IsSig(r));
    }

    /** addRR(RRSIGRecord) */
    method AddSignature(r: Record) returns (res: Outcome<RRsetError>)
      requires Valid() && IsSig(r)
      modifies this`rrs, this`sigs, this`ttl
      ensures Valid()
      ensures res.Fail? <==> Added(old(State()), r).Failure?
      ensures res.Fail? ==> res.error == RecordDoesNotMatch && State() == old(State())
      ensures res.Pass? ==> State() == Added(old(State()), r).value
    {
      res := AddTo(r, true);
    }

    /** deleteRR(Record): removes the first equal record from its list, if any. */
    method DeleteRR(r: Record)
      requires Valid()
      modifies this`rrs, this`sigs
      ensures Valid() && State() == Deleted(old(State()), r)
    {
      DeletedValid(State(), r);
      if IsSig(r) {
        sigs := RemoveFirst(sigs, r);
      } else {
        rrs := RemoveFirst(rrs, r);
      }
    }

    /** deleteRR(RRSIGRecord) */
    method DeleteSignature(r: Record)
      requires Valid() && IsSig(r)
      modifies this`rrs, this`sigs
      ensures Valid() && State() == Deleted(old(State()), r)
    {
      DeleteRR(r);
    }

    /** RRset.clear: both lists emptied; the TTL and the cursor stay. */
    method Clear()
      requires Valid()
      modifies this`rrs, this`sigs
      ensures Valid() && IsEmpty() && ttl == old(ttl)
    {
      rrs := [];
      sigs := [];
    }

    /**
     * RRset.rrs(cycle): without cycling, or with at most one data record, the stored order;
     * otherwise the stored order rotated to start at the cursor modulo the size, after which the
     * cursor advances, having first been reset to 0 if it stood at Short.MAX_VALUE. The stored
     * order never changes.
     */
    method Rrs(cycle: bool) returns (l: seq<Record>)
      requires Valid()
      modifies this`position
      ensures Valid() && multiset(l) == multiset(rrs)
      ensures !cycle || |rrs| <= 1 ==> l == rrs && position == old(position)
      ensures cycle && |rrs| > 1 ==>
                var p := if old(position) == SHORT_MAX then 0 else old(position);
                l == Rotate(rrs, p % |rrs|) && position == p + 1
    {
      if !cycle || |rrs| <= 1 {
        return rrs;
      }
      if position == SHORT_MAX {
        position := 0;
      }
      var start := position % |rrs|;
      position := position + 1;
      l := rrs[start..] + rrs[..start];
      RotateIsPermutation(rrs, start);
    }

    /** RRset.first: the first data record, else the first signature, else "rrset is empty". */
    function First(): (r: Result<Record, RRsetError>)
      reads this
      ensures r.Failure? <==> IsEmpty()
      ensures r.Success? ==> r.value in rrs || r.value in sigs
      ensures rrs != [] ==> r == Success(rrs[0])
      ensures rrs == [] && sigs != [] ==> r == Success(sigs[0])
    {
      if rrs != [] then Success(rrs[0])
      else if sigs != [] then Success(sigs[0])
      else Failure(RRsetIsEmpty)
    }

    /** RRset.getName */
    function GetName(): (r: Result<Name, RRsetError>)
      reads this
      ensures r.Failure? <==> IsEmpty()
      ensures r.Success? ==> r.value == First().value.name
    {
      match First()
      case Success(r) => Success(r.name)
      case Failure(e) => Failure(e)
    }

    /** RRset.getType: the covered type when the set holds only signatures. */
    function GetType(): (r: Result<int, RRsetError>)
      reads this
      ensures r.Failure? <==> IsEmpty()
      ensures r.Success? ==> r.value == RRsetType(First().value)
      ensures rrs == [] && sigs != [] ==> r == Success(RRsetType(sigs[0]))
    {
      match First()
      case Success(r) => Success(RRsetType(r))
      case Failure(e) => Failure(e)
    }

    /** RRset.getActualType */
    function GetActualType(): (r: Result<int, RRsetError>)
      reads this
      ensures r.Failure? <==> IsEmpty()
      ensures rrs != [] ==> r == Success(rrs[0].rrType)
      ensures rrs == [] && sigs != [] ==> r == Success(sigs[0].rrType)
    {
      match First()
      case Success(r) => Success(r.rrType)
      case Failure(e) => Failure(e)
    }

    /** RRset.getDClass */
    function GetDClass(): (r: Result<int, RRsetError>)
      reads this
      ensures r.Failure? <==> IsEmpty()
      ensures r.Success? ==> r.value == First().value.dclass
    {
      match First()
      case Success(r) => Success(r.dclass)
      case Failure(e) => Failure(e)
    }

    /** RRset.getTTL */
    function GetTTL(): (r: Result<int, RRsetError>)
      reads this
      ensures r.Failure? <==> IsEmpty()
      ensures r.Success? ==> r.value == First().value.ttl
    {
      match First()
      case Success(r) => Success(r.ttl)
      case Failure(e) => Failure(e)
    }

    /**
     * The accessors all fail, with "rrset is empty", exactly when the set is empty; otherwise
     * every member has the reported name, RRset type and class, and the TTL is the set TTL.
     */
    lemma AccessorsAgree()
      requires Valid()
      ensures GetName().Failure? <==> IsEmpty()
      ensures GetType().Failure? <==> IsEmpty()
      ensures GetDClass().Failure? <==> IsEmpty()
      ensures GetTTL().Failure? <==> IsEmpty()
      ensures IsEmpty() ==> GetName() == Failure(RRsetIsEmpty)
      ensures !IsEmpty() ==> GetTTL() == Success(ttl)
      ensures rrs != [] ==> GetType() == GetActualType()
      ensures rrs == [] && sigs != [] ==> GetActualType() == Success(RRSIG) && GetType() == Success(sigs[0].covered)
      ensures !IsEmpty() ==> forall i :: 0 <= i < |rrs| ==>
                rrs[i].name == GetName().value && RRsetType(rrs[i]) == GetType().value && rrs[i].dclass == GetDClass().value
      ensures !IsEmpty() ==> forall i :: 0 <= i < |sigs| ==>
                sigs[i].name == GetName().value && RRsetType(sigs[i]) == GetType().value && sigs[i].dclass == GetDClass().value
    {
      if !IsEmpty() {
        assert First().value == Anchor(State());
        assert KeysAre(rrs, Key(Anchor(State())));
        assert KeysAre(sigs, Key(Anchor(State())));
      }
    }
  }
}
