/** Vocabulary shared by every module: results, fixed-width integers and opaque byte identifiers. */
module Base {
  datatype Option<+T> = None | Some(value: T)

  datatype Result<+T, +E> = Ok(value: T) | Err(error: E)

  type byte = x: int | 0 <= x < 0x100
  type u16 = x: int | 0 <= x < 0x1_0000
  type u32 = x: int | 0 <= x < 0x1_0000_0000
  type u64 = x: int | 0 <= x < 0x1_0000_0000_0000_0000
  type u128 = x: int | 0 <= x < 0x1_0000_0000_0000_0000_0000_0000_0000_0000

  const U16_MAX: u16 := 0xFFFF
  const U32_MAX: u32 := 0xFFFF_FFFF
  const U64_MAX: u64 := 0xFFFF_FFFF_FFFF_FFFF
  const U128_MAX: u128 := 0xFFFF_FFFF_FFFF_FFFF_FFFF_FFFF_FFFF_FFFF

  /** `usize` of the 64-bit targets the repository is built for. */
  const USIZE_MAX: u64 := U64_MAX

  /** Every channel starts in this generation. */
  const INITIAL_GENERATION: u32 := 1

  type Bytes = seq<byte>

  /** Opaque identifiers are byte strings compared only for equality and order. */
  type Id16 = s: Bytes | |s| == 16 witness seq(16, _ => 0)
  type Id32 = s: Bytes | |s| == 32 witness seq(32, _ => 0)

  function Min(a: int, b: int): int { if a <= b then a else b }

  function Max(a: int, b: int): int { if a >= b then a else b }

  function SaturatingAdd64(a: u64, b: nat): u64 { Min(a + b, U64_MAX) }

  function SaturatingAdd128(a: u128, b: nat): u128 { Min(a + b, U128_MAX) }

  lemma TimesMonotone(a: nat, b: nat, c: nat)
    requires a <= b
    ensures a * c <= b * c && c * a <= c * b
  {
  }

  lemma TimesStep(k: nat, c: nat)
    ensures (k + 1) * c == k * c + c
  {
  }

  /** No element occurs twice. */
  predicate Distinct<T(==)>(s: seq<T>) {
    forall i, j :: 0 <= i < j < |s| ==> s[i] != s[j]
  }

  ghost function Elements<T>(s: seq<T>): set<T> {
    set x | x in s
  }

  function RemoveAt<T>(s: seq<T>, i: nat): (r: seq<T>)
    requires i < |s|
    ensures |r| == |s| - 1
  {
    s[..i] + s[i + 1..]
  }

  /** What `retain(|y| y != x)` leaves. */
  function Without<T(==)>(s: seq<T>, x: T): (r: seq<T>)
    ensures x !in r
    ensures forall y :: y in r ==> y in s
    ensures forall y :: y in s && y != x ==> y in r
  {
    if s == [] then [] else if s[0] == x then Without(s[1..], x) else [s[0]] + Without(s[1..], x)
  }

  lemma {:induction false} WithoutDistinct<T>(s: seq<T>, x: T)
    requires Distinct(s)
    ensures Distinct(Without(s, x))
  {
    if s != [] {
      assert forall i :: 0 <= i < |s[1..]| ==> s[1..][i] == s[i + 1];
      WithoutDistinct(s[1..], x);
      if s[0] != x {
        assert s[0] !in s[1..];
      }
    }
  }

  /** Dropping the tail of `s` first is the same as dropping it last. */
  lemma {:induction false} WithoutAppend<T>(s: seq<T>, t: seq<T>, x: T)
    ensures Without(s + t, x) == Without(s, x) + Without(t, x)
  {
    if s == [] {
      assert s + t == t;
    } else {
      assert (s + t)[1..] == s[1..] + t;
      WithoutAppend(s[1..], t, x);
    }
  }

  lemma DistinctAppend<T>(s: seq<T>, x: T)
    requires Distinct(s) && x !in s
    ensures Distinct(s + [x])
  {
  }

  lemma RemoveAtDistinct<T>(s: seq<T>, i: nat)
    requires i < |s| && Distinct(s)
    ensures Distinct(RemoveAt(s, i))
    ensures forall y :: y in RemoveAt(s, i) ==> y in s && y != s[i]
    ensures forall y :: y in s && y != s[i] ==> y in RemoveAt(s, i)
  {
    var r := RemoveAt(s, i);
    assert forall k :: 0 <= k < |r| ==> r[k] == s[if k < i then k else k + 1];
    forall y | y in s && y != s[i]
      ensures y in r
    {
      var k :| 0 <= k < |s| && s[k] == y;
      assert r[if k < i then k else k - 1] == y;
    }
  }

  lemma {:induction false} DistinctElements<T>(s: seq<T>)
    requires Distinct(s)
    ensures |Elements(s)| == |s|
  {
    if s == [] {
    } else {
      var t := s[1..];
      assert Distinct(t) by { assert forall k :: 0 <= k < |t| ==> t[k] == s[k + 1]; }
      DistinctElements(t);
      assert s[0] !in t;
      assert Elements(s) == {s[0]} + Elements(t);
    }
  }

  lemma {:induction false} SubsetSize<T>(a: set<T>, b: set<T>)
    requires a <= b
    ensures |a| <= |b|
  {
    if a == {} {
    } else {
      var x :| x in a;
      SubsetSize(a - {x}, b - {x});
    }
  }

  lemma {:induction false} ElementsBound<T>(s: seq<T>)
    ensures |Elements(s)| <= |s|
  {
    if s == [] {
    } else {
      ElementsBound(s[1..]);
      assert Elements(s) == {s[0]} + Elements(s[1..]);
    }
  }

  /** A list without repetition drawn from another list is no longer than it. */
  lemma DistinctFits<T>(a: seq<T>, b: seq<T>)
    requires Distinct(a) && forall x :: x in a ==> x in b
    ensures |a| <= |b|
  {
    DistinctElements(a);
    ElementsBound(b);
    SubsetSize(Elements(a), Elements(b));
  }
}

/** Sums over the values of a finite map. */
module Sums {
  import opened Base

  ghost function Sum<K>(m: map<K, nat>): nat {
    if m == map[] then 0 else
      var k :| k in m;
      m[k] + Sum(m - {k})
  }

  lemma SumRemove<K>(m: map<K, nat>, k: K)
    requires k in m
    ensures Sum(m) == m[k] + Sum(m - {k})
  {
    var c :| c in m && Sum(m) == m[c] + Sum(m - {c});
    if c != k {
      SumRemove(m - {c}, k);
      SumRemove(m - {k}, c);
      assert m - {c} - {k} == m - {k} - {c};
    }
  }

  lemma SumAdd<K>(m: map<K, nat>, k: K, v: nat)
    requires k !in m
    ensures Sum(m[k := v]) == Sum(m) + v
  {
    SumRemove(m[k := v], k);
    assert m[k := v] - {k} == m;
  }

  lemma SumUpdate<K>(m: map<K, nat>, k: K, v: nat)
    requires k in m
    ensures Sum(m[k := v]) + m[k] == Sum(m) + v
  {
    SumRemove(m, k);
    SumRemove(m[k := v], k);
    assert m[k := v] - {k} == m - {k};
  }

  lemma {:induction false} SumMonotone<K>(a: map<K, nat>, b: map<K, nat>)
    requires a.Keys <= b.Keys
    requires forall k :: k in a ==> a[k] <= b[k]
    ensures Sum(a) <= Sum(b)
    decreases |b|
  {
    if a == map[] {
    } else {
      var k :| k in a;
      SumRemove(a, k);
      SumRemove(b, k);
      SumMonotone(a - {k}, b - {k});
    }
  }

  lemma Smaller<K>(m: map<K, nat>, k: K)
    requires k in m
    ensures |m - {k}| == |m| - 1
  {
    assert (m - {k}).Keys == m.Keys - {k};
  }

  lemma {:induction false} SumBound<K>(m: map<K, nat>, bound: nat)
    requires forall k :: k in m ==> m[k] <= bound
    ensures Sum(m) <= |m| * bound
    decreases |m|
  {
    if m == map[] {
    } else {
      var k :| k in m;
      SumRemove(m, k);
      SumBound(m - {k}, bound);
      Smaller(m, k);
      TimesStep(|m| - 1, bound);
    }
  }

  lemma {:induction false} SumZero<K>(m: map<K, nat>)
    requires forall k :: k in m ==> m[k] == 0
    ensures Sum(m) == 0
    decreases |m|
  {
    if m == map[] {
    } else {
      var k :| k in m;
      SumRemove(m, k);
      SumZero(m - {k});
    }
  }

  lemma SumAtLeast<K>(m: map<K, nat>, k: K)
    requires k in m
    ensures m[k] <= Sum(m)
  {
    SumRemove(m, k);
  }

  /** Every value cut off at `cap`. */
  ghost function Cut<K>(m: map<K, nat>, cap: nat): map<K, nat> {
    map k | k in m :: if m[k] <= cap then m[k] else cap
  }

  /** Cutting off and adding up commute exactly when the sum is within the cap or lies all in one place. */
  lemma CutSum<K>(m: map<K, nat>, cap: nat)
    requires cap > 0
    ensures Sum(Cut(m, cap)) == (if Sum(m) <= cap then Sum(m) else cap)
            <==> Sum(m) <= cap || exists k :: k in m && m[k] == Sum(m)
  {
    if k :| k in m && m[k] > cap {
      SumRemove(m, k);
      SumRemove(Cut(m, cap), k);
      assert Cut(m, cap) - {k} == Cut(m - {k}, cap);
      if Sum(m - {k}) == 0 {
        CutRest(m - {k}, cap);
      } else {
        var j :| j in m - {k} && m[j] > 0 by {
          if forall j :: j in m - {k} ==> m[j] == 0 {
            SumZero(m - {k});
          }
        }
        SumAtLeast(Cut(m - {k}, cap), j);
        NoneIsAll(m, k);
      }
    } else {
      assert Cut(m, cap) == m;
    }
  }

  lemma CutRest<K>(m: map<K, nat>, cap: nat)
    requires Sum(m) == 0
    ensures Sum(Cut(m, cap)) == 0
  {
    forall k | k in m
      ensures m[k] == 0
    {
      SumAtLeast(m, k);
    }
    SumZero(Cut(m, cap));
  }

  lemma NoneIsAll<K>(m: map<K, nat>, k: K)
    requires k in m && m[k] > 0 && Sum(m - {k}) > 0
    ensures forall j :: j in m ==> m[j] != Sum(m)
  {
    SumRemove(m, k);
    forall j | j in m
      ensures m[j] != Sum(m)
    {
      SumRemove(m, j);
      if j != k {
        SumAtLeast(m - {j}, k);
      }
    }
  }
}
