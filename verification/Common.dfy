// Shared vocabulary: optional values, the saturating millisecond arithmetic of
// the repository's time type, and stable sorting by an integer key.

module Wrappers {
  datatype Option<+T> = None | Some(value: T)
}

/** Timestamps are unsigned 64-bit milliseconds; sums and differences saturate. */
module UnixTime {
  const U64_MAX: int := 0xFFFF_FFFF_FFFF_FFFF
  const U32_MAX: int := 0xFFFF_FFFF

  const I64_MAX: int := 0x7FFF_FFFF_FFFF_FFFF
  const I64_MIN: int := -0x8000_0000_0000_0000

  type I64 = x: int | I64_MIN <= x <= I64_MAX
  type U64 = x: int | 0 <= x <= U64_MAX
  type U32 = x: int | 0 <= x <= U32_MAX

  function Min(a: int, b: int): int { if a <= b then a else b }

  function Max(a: int, b: int): int { if a <= b then b else a }

  function SatAdd(a: U64, delta: U64): U64 { Min(a + delta, U64_MAX) }

  function SatSub(a: U64, delta: U64): U64 { Max(a - delta, 0) }

  function SatInc32(a: U32): U32 { if a == U32_MAX then a else a + 1 }
}

module Powers {
  function Pow2(n: nat): (p: nat)
    ensures p >= 1
  {
    if n == 0 then 1 else 2 * Pow2(n - 1)
  }

  lemma {:induction false} Pow2Monotone(a: nat, b: nat)
    requires a <= b
    ensures Pow2(a) <= Pow2(b)
    decreases b
  {
    if a < b { Pow2Monotone(a, b - 1); }
  }

  lemma Multiples(d: int, m: int)
    requires m >= 1
    ensures (d >= 1 ==> d * m >= m) && (d <= -1 ==> d * m <= -m)
  {
  }
}

/** `sort_by_key`: the stable sort of a sequence by an integer key, and what follows from it. */
module Sorting {
  ghost predicate Sorted<T(!new)>(s: seq<T>, key: T -> int) {
    forall i, j :: 0 <= i <= j < |s| ==> key(s[i]) <= key(s[j])
  }

  ghost predicate StrictlySorted<T(!new)>(s: seq<T>, key: T -> int) {
    forall i, j :: 0 <= i < j < |s| ==> key(s[i]) < key(s[j])
  }

  function Front<T>(s: seq<T>): seq<T>
    requires s != []
  {
    s[..|s| - 1]
  }

  function Last<T>(s: seq<T>): T
    requires s != []
  {
    s[|s| - 1]
  }

  lemma Assoc<T>(a: seq<T>, b: seq<T>, c: seq<T>)
    ensures (a + b) + c == a + (b + c)
  {
  }

  /** The elements of `s` whose key is `k`, in their order of appearance. */
  function Group<T>(s: seq<T>, key: T -> int, k: int): seq<T> {
    if s == [] then []
    else Group(Front(s), key, k) + if key(Last(s)) == k then [Last(s)] else []
  }

  /** Inserts `x` behind the last element whose key is not greater. */
  function Insert<T>(s: seq<T>, x: T, key: T -> int): (r: seq<T>)
    ensures multiset(r) == multiset(s) + multiset([x])
  {
    if s == [] || key(Last(s)) <= key(x) then s + [x]
    else
      assert s == Front(s) + [Last(s)];
      Insert(Front(s), x, key) + [Last(s)]
  }

  function SortByKey<T>(s: seq<T>, key: T -> int): (r: seq<T>)
    ensures multiset(r) == multiset(s)
  {
    if s == [] then []
    else
      assert s == Front(s) + [Last(s)];
      Insert(SortByKey(Front(s), key), Last(s), key)
  }

  lemma SameMultisetSameMembers<T>(a: seq<T>, b: seq<T>)
    requires multiset(a) == multiset(b)
    ensures |a| == |b| && forall e :: e in a <==> e in b
  {
    assert |multiset(a)| == |a| && |multiset(b)| == |b|;
    forall e ensures e in a <==> e in b {
      assert e in multiset(a) <==> e in multiset(b);
    }
  }

  lemma {:induction false} InsertSorted<T(!new)>(s: seq<T>, x: T, key: T -> int)
    requires Sorted(s, key)
    ensures Sorted(Insert(s, x, key), key)
  {
    if s != [] && key(Last(s)) > key(x) {
      InsertSorted(Front(s), x, key);
      var r := Insert(Front(s), x, key);
      SameMultisetSameMembers(r, Front(s) + [x]);
      forall i | 0 <= i < |r| ensures key(r[i]) <= key(Last(s)) {
        assert r[i] in r;
        assert r[i] in Front(s) + [x];
      }
    }
  }

  lemma {:induction false} SortByKeySorted<T(!new)>(s: seq<T>, key: T -> int)
    ensures Sorted(SortByKey(s, key), key)
  {
    if s != [] {
      SortByKeySorted(Front(s), key);
      InsertSorted(SortByKey(Front(s), key), Last(s), key);
    }
  }

  lemma SortByKeyMembers<T(!new)>(s: seq<T>, key: T -> int)
    ensures forall e :: e in SortByKey(s, key) <==> e in s
    ensures |SortByKey(s, key)| == |s|
  {
    SameMultisetSameMembers(SortByKey(s, key), s);
  }

  lemma GroupSnoc<T>(s: seq<T>, x: T, key: T -> int, k: int)
    ensures Group(s + [x], key, k) == Group(s, key, k) + if key(x) == k then [x] else []
  {
    assert Front(s + [x]) == s;
  }

  lemma {:induction false} InsertStable<T(!new)>(s: seq<T>, x: T, key: T -> int, k: int)
    ensures Group(Insert(s, x, key), key, k) == Group(s, key, k) + if key(x) == k then [x] else []
  {
    if s == [] || key(Last(s)) <= key(x) {
      GroupSnoc(s, x, key, k);
    } else {
      InsertStable(Front(s), x, key, k);
      GroupSnoc(Insert(Front(s), x, key), Last(s), key, k);
    }
  }

  /** Stability: equal keys keep the order in which they came. */
  lemma {:induction false} SortByKeyStable<T(!new)>(s: seq<T>, key: T -> int, k: int)
    ensures Group(SortByKey(s, key), key, k) == Group(s, key, k)
  {
    if s != [] {
      SortByKeyStable(Front(s), key, k);
      InsertStable(SortByKey(Front(s), key), Last(s), key, k);
    }
  }

  lemma {:induction false} GroupEmpty<T>(s: seq<T>, key: T -> int, k: int)
    ensures Group(s, key, k) == [] <==> forall i :: 0 <= i < |s| ==> key(s[i]) != k
  {
    if s != [] {
      GroupEmpty(Front(s), key, k);
      assert forall i :: 0 <= i < |s| - 1 ==> s[i] == Front(s)[i];
    }
  }

  /** `dedup_by_key`: of each run of neighbours with one key, only the first stays. */
  function DedupByKey<T>(s: seq<T>, key: T -> int): (r: seq<T>)
    ensures |r| <= |s| && (r == [] <==> s == [])
    ensures forall e :: e in r ==> e in s
    ensures s != [] ==> key(Last(r)) == key(Last(s))
  {
    if |s| <= 1 then s
    else
      var rest := DedupByKey(Front(s), key);
      if key(Last(rest)) == key(Last(s)) then rest else rest + [Last(s)]
  }

  lemma {:induction false} DedupStrict<T(!new)>(s: seq<T>, key: T -> int)
    requires Sorted(s, key)
    ensures StrictlySorted(DedupByKey(s, key), key)
  {
    if |s| > 1 {
      DedupStrict(Front(s), key);
      assert key(Last(DedupByKey(Front(s), key))) == key(s[|s| - 2]);
    }
  }

  lemma {:induction false} DedupStays<T(!new)>(s: seq<T>, key: T -> int)
    requires StrictlySorted(s, key)
    ensures DedupByKey(s, key) == s
  {
    if |s| > 1 {
      DedupStays(Front(s), key);
      assert s == Front(s) + [Last(s)];
      assert key(s[|s| - 2]) < key(s[|s| - 1]);
    }
  }

  /** On a sorted sequence `dedup_by_key` keeps exactly the first element of every key. */
  lemma {:induction false} DedupKeepsFirst<T(!new)>(s: seq<T>, key: T -> int, k: int)
    requires Sorted(s, key)
    ensures Group(DedupByKey(s, key), key, k)
         == if Group(s, key, k) == [] then [] else [Group(s, key, k)[0]]
  {
    if |s| == 1 {
      assert Front(s) == [];
    } else if |s| > 1 {
      var front, rest := Front(s), DedupByKey(Front(s), key);
      DedupKeepsFirst(front, key, k);
      GroupSnoc(rest, Last(s), key, k);
      if key(Last(s)) == k {
        GroupEmpty(front, key, k);
        assert forall i :: 0 <= i < |front| ==> front[i] == s[i] && key(s[i]) <= key(s[|s| - 2]) <= key(Last(s));
      }
    }
  }
}

/** `str::trim` as far as it decides whether anything is left. */
module Blankness {
  predicate IsWhitespace(c: char) {
    var n := c as int;
    || 9 <= n <= 13 || n == 32 || n == 0x85 || n == 0xA0 || n == 0x1680
    || 0x2000 <= n <= 0x200A || n == 0x2028 || n == 0x2029 || n == 0x202F || n == 0x205F || n == 0x3000
  }

  predicate Blank(s: string) {
    forall i :: 0 <= i < |s| ==> IsWhitespace(s[i])
  }
}
