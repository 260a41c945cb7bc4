/** The instrument registry of pgm2xm.c:44-61: a table of the sample ids the
    patterns reference, in the order they are first met, whose 1-based
    positions are the XM instrument numbers. */
module Registry {
  import opened Bytes

  /** No sample id occurs twice in the table. */
  predicate Distinct(t: seq<byte>) {
    forall i, j :: 0 <= i < j < |t| ==> t[i] != t[j]
  }

  /** `id -= 1` on a uint8_t: the bytecode's sample ids are 1-based, the table
      holds them 0-based, and id 0 wraps round to 255. */
  function Key(id: byte): (k: byte)
    ensures (k + 1) % 0x100 == id
  {
    (id - 1) % 0x100
  }

  /** Position of the first entry equal to `k`, or `|t|` when there is none. */
  function Find(t: seq<byte>, k: byte): (i: nat)
    ensures i <= |t|
    ensures i < |t| ==> t[i] == k
    ensures forall m :: 0 <= m < i ==> t[m] != k
  {
    if t == [] then 0 else if t[0] == k then 0 else 1 + Find(t[1..], k)
  }

  /** The table after a lookup, and the 1-based instrument number handed out. */
  datatype Resolved = Resolved(table: seq<byte>, index: nat)

  /** `instrument(id)`: the number of an id already in the table, or a new
      entry at the end and the new count. The C function returns this number
      as a uint8_t; callers write `index % 0x100`. */
  function Resolve(t: seq<byte>, id: byte): (r: Resolved)
    ensures Key(id) in t ==> r.table == t && 1 <= r.index <= |t| && t[r.index - 1] == Key(id)
    ensures Key(id) !in t ==> r.table == t + [Key(id)] && r.index == |t| + 1
    ensures Distinct(t) ==> Distinct(r.table)
  {
    var i := Find(t, Key(id));
    if i < |t| then Resolved(t, i + 1) else Resolved(t + [Key(id)], |t| + 1)
  }

  /** The table after resolving `ids` one after the other. */
  function ResolveAll(t: seq<byte>, ids: seq<byte>): seq<byte>
    decreases |ids|
  {
    if ids == [] then t else Resolve(ResolveAll(t, ids[..|ids| - 1]), ids[|ids| - 1]).table
  }

  /** The keys of a sequence of sample ids. */
  function Keys(ids: seq<byte>): (ks: seq<byte>)
    ensures |ks| == |ids|
  {
    seq(|ids|, i requires 0 <= i < |ids| => Key(ids[i]))
  }

  /** Entries are only ever appended: an instrument number, once handed out,
      keeps naming the same sample id. */
  lemma {:induction false} ResolveAllExtends(t: seq<byte>, ids: seq<byte>)
    ensures t <= ResolveAll(t, ids)
    decreases |ids|
  {
    if ids != [] {
      ResolveAllExtends(t, ids[..|ids| - 1]);
    }
  }

  /** Resolving keeps the table free of repeats. */
  lemma {:induction false} ResolveAllDistinct(t: seq<byte>, ids: seq<byte>)
    requires Distinct(t)
    ensures Distinct(ResolveAll(t, ids))
    decreases |ids|
  {
    if ids != [] {
      ResolveAllDistinct(t, ids[..|ids| - 1]);
    }
  }

  /** Re-referencing an id later yields the number it got the first time, and
      changes nothing. */
  lemma IndexStable(t: seq<byte>, id: byte, later: seq<byte>)
    requires Distinct(t)
    ensures var first := Resolve(t, id);
            var t2 := ResolveAll(first.table, later);
            Resolve(t2, id) == Resolved(t2, first.index)
  {
    var first := Resolve(t, id);
    var t2 := ResolveAll(first.table, later);
    ResolveAllExtends(first.table, later);
    ResolveAllDistinct(first.table, later);
    assert t2[first.index - 1] == Key(id);
  }

  lemma FindAppend(s: seq<byte>, x: byte, k: byte)
    requires x in s
    ensures Find(s + [k], x) == Find(s, x)
  {
    if s[0] != x {
      assert (s + [k])[1..] == s[1..] + [k];
      FindAppend(s[1..], x, k);
    }
  }

  lemma FindLast(s: seq<byte>, k: byte)
    requires k !in s
    ensures Find(s + [k], k) == |s|
  {
    if s != [] {
      assert (s + [k])[1..] == s[1..] + [k];
      FindLast(s[1..], k);
    }
  }

  /** Starting from an empty table, the registry holds exactly the keys of
      the referenced ids, each once. */
  lemma {:induction false} RegistryKeys(ids: seq<byte>)
    ensures Distinct(ResolveAll([], ids))
    ensures forall k :: k in ResolveAll([], ids) <==> k in Keys(ids)
    decreases |ids|
  {
    ResolveAllDistinct([], ids);
    if ids != [] {
      var front := ids[..|ids| - 1];
      RegistryKeys(front);
      assert Keys(ids) == Keys(front) + [Key(ids[|ids| - 1])];
    }
  }

  /** The registry is ordered by first reference: an entry precedes another
      exactly when its key is referenced first. */
  lemma {:induction false} FirstReferenceOrder(ids: seq<byte>)
    ensures forall i, j :: 0 <= i < j < |ResolveAll([], ids)| ==>
              Find(Keys(ids), ResolveAll([], ids)[i]) < Find(Keys(ids), ResolveAll([], ids)[j])
    decreases |ids|
  {
    if ids != [] {
      var front := ids[..|ids| - 1];
      var k := Key(ids[|ids| - 1]);
      FirstReferenceOrder(front);
      RegistryKeys(front);
      var t0 := ResolveAll([], front);
      var ks0 := Keys(front);
      var ks := Keys(ids);
      assert ks == ks0 + [k];
      var t := ResolveAll([], ids);
      assert t == Resolve(t0, ids[|ids| - 1]).table;
      assert t0 <= t;
      forall i | 0 <= i < |t0|
        ensures Find(ks, t0[i]) == Find(ks0, t0[i])
      {
        assert t0[i] in ks0;
        FindAppend(ks0, t0[i], k);
      }
      if k !in t0 {
        assert k !in ks0;
        FindLast(ks0, k);
      }
      forall i, j | 0 <= i < j < |t|
        ensures Find(ks, t[i]) < Find(ks, t[j])
      {
        if j < |t0| {
          assert t[i] == t0[i] && t[j] == t0[j];
        } else {
          assert t[i] == t0[i] && t[j] == k;
          assert Find(ks0, t0[i]) < |ks0|;
        }
      }
    }
  }

  /** The number of instruments equals the number of distinct ids referenced. */
  lemma InstrumentCount(ids: seq<byte>)
    ensures |ResolveAll([], ids)| == |Elements(Keys(ids))|
  {
    RegistryKeys(ids);
    var t := ResolveAll([], ids);
    DistinctCardinality(t);
    assert Elements(t) == Elements(Keys(ids));
  }

  /** The set of ids a table or reference list holds. */
  function Elements(t: seq<byte>): set<byte> {
    set k | k in t
  }

  lemma {:induction false} DistinctCardinality(t: seq<byte>)
    requires Distinct(t)
    ensures |Elements(t)| == |t|
  {
    if t != [] {
      var rest := t[1..];
      assert Distinct(rest) by {
        forall i, j | 0 <= i < j < |rest| ensures rest[i] != rest[j] {
          assert rest[i] == t[i + 1] && rest[j] == t[j + 1];
        }
      }
      DistinctCardinality(rest);
      var whole := Elements(t);
      var tail := Elements(rest);
      assert t[0] !in tail by {
        forall i | 0 <= i < |rest| ensures rest[i] != t[0] {
          assert rest[i] == t[i + 1];
        }
      }
      assert whole == tail + {t[0]} by {
        assert t == [t[0]] + rest;
      }
    }
  }

  /** The byte values 0 .. n-1 in order. */
  function Upto(n: nat): (s: seq<byte>)
    requires n <= 0x100
    ensures |s| == n && forall i :: 0 <= i < n ==> s[i] == i
  {
    seq(n, i => i)
  }

  /** `instable` has 256 slots and nothing guards `inscount`, yet the table
      cannot overflow: keys are bytes, so an id that is not yet in a table
      without repeats finds the table less than full. */
  lemma NoOverflow(t: seq<byte>, k: byte)
    requires Distinct(t) && k !in t
    ensures |t| < 0x100
  {
    var t' := t + [k];
    assert Distinct(t');
    DistinctCardinality(t');
    DistinctCardinality(Upto(0x100));
    var keys := Elements(t');
    var range := Elements(Upto(0x100));
    assert keys <= range by {
      forall x | x in keys ensures x in range {
        assert Upto(0x100)[x] == x;
      }
    }
    assert |keys| <= |range| by {
      assert range == keys + (range - keys);
    }
  }

  /** 256 distinct ids fill the registry exactly: from then on every id is
      found, so no 257th entry is ever made. */
  lemma FullTable(t: seq<byte>)
    requires Distinct(t) && |t| == 0x100
    ensures forall k: byte :: k in t
  {
    forall k: byte
      ensures k in t
    {
      if k !in t {
        NoOverflow(t, k);
      }
    }
  }

  /** A table without repeats never holds more than 256 ids. */
  lemma DistinctBound(t: seq<byte>)
    requires Distinct(t)
    ensures |t| <= 0x100
  {
    if |t| > 0x100 {
      var front := t[..0x100];
      assert Distinct(front);
      assert t[0x100] !in front;
      NoOverflow(front, t[0x100]);
    }
  }
}
