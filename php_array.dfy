/**
 * PHP's ordered arrays as sequences of key/value pairs: assigning to an
 * existing key keeps its position, assigning to a new key appends it,
 * `unset` removes it, and `array_merge` renumbers integer keys while later
 * string keys override earlier ones.
 */
module PhpArray {
  import opened Wrappers
  import Decimal

  /** An array key: PHP stores canonical integer strings as integers. */
  datatype Key = IntKey(i: int) | StrKey(s: string)

  /**
   * The key PHP uses for the string `s` (`$a[$s]`): an integer key for a
   * canonical integer string within the range of `int`, the string otherwise.
   */
  function KeyOf(s: string): (k: Key)
    ensures k.StrKey? ==> k.s == s && !Decimal.IsIntKey(s)
    ensures k.IntKey? ==> Decimal.IntText(k.i) == s && Decimal.InLong(k.i)
  {
    if Decimal.IsIntKey(s) then
      Decimal.CanonicalIntText(s);
      IntKey(Decimal.ParseInteger(s).value)
    else StrKey(s)
  }

  lemma KeyOfInjective(s: string, t: string)
    requires KeyOf(s) == KeyOf(t)
    ensures s == t
  {
  }

  predicate DistinctKeys<K(==), V>(a: seq<(K, V)>)
  {
    forall i, j | 0 <= i < j < |a| :: a[i].0 != a[j].0
  }

  function Keys<K, V>(a: seq<(K, V)>): (r: seq<K>)
    ensures |r| == |a| && forall i | 0 <= i < |a| :: r[i] == a[i].0
  {
    if a == [] then [] else [a[0].0] + Keys(a[1..])
  }

  function Values<K, V>(a: seq<(K, V)>): (r: seq<V>)
    ensures |r| == |a| && forall i | 0 <= i < |a| :: r[i] == a[i].1
  {
    if a == [] then [] else [a[0].1] + Values(a[1..])
  }

  /** The position of key `k`, if present. */
  function IndexOf<K(==), V>(a: seq<(K, V)>, k: K): (r: Option<nat>)
    ensures r.Some? ==> r.value < |a| && a[r.value].0 == k && forall j | 0 <= j < r.value :: a[j].0 != k
    ensures r.None? ==> forall j | 0 <= j < |a| :: a[j].0 != k
  {
    if a == [] then None
    else if a[0].0 == k then Some(0)
    else match IndexOf(a[1..], k)
      case None => None
      case Some(j) => Some(j + 1)
  }

  /** The first position holding `k` is what IndexOf finds. */
  lemma {:induction false} IndexOfIs<K, V>(a: seq<(K, V)>, k: K, i: nat)
    requires i < |a| && a[i].0 == k && forall j | 0 <= j < i :: a[j].0 != k
    ensures IndexOf(a, k) == Some(i)
  {
    if i > 0 {
      IndexOfIs(a[1..], k, i - 1);
    }
  }

  lemma {:induction false} IndexOfNone<K, V>(a: seq<(K, V)>, k: K)
    requires forall j | 0 <= j < |a| :: a[j].0 != k
    ensures IndexOf(a, k) == None
  {
    if a != [] {
      IndexOfNone(a[1..], k);
    }
  }

  /** `$a[$k] ?? null`, for arrays whose values are never null. */
  function Get<K(==), V>(a: seq<(K, V)>, k: K): Option<V>
  {
    match IndexOf(a, k)
    case None => None
    case Some(i) => Some(a[i].1)
  }

  /** `$a[$k] = $v`. */
  function Put<K(==), V>(a: seq<(K, V)>, k: K, v: V): seq<(K, V)>
  {
    match IndexOf(a, k)
    case Some(i) => a[i := (k, v)]
    case None => a + [(k, v)]
  }

  /** `unset($a[$k])`. */
  function Unset<K(==), V>(a: seq<(K, V)>, k: K): (r: seq<(K, V)>)
    ensures |r| <= |a|
  {
    if a == [] then []
    else if a[0].0 == k then Unset(a[1..], k)
    else [a[0]] + Unset(a[1..], k)
  }

  /** Assignment sets `k` and leaves every other key alone. */
  lemma PutGet<K, V>(a: seq<(K, V)>, k: K, v: V)
    ensures Get(Put(a, k, v), k) == Some(v)
    ensures forall k' | k' != k :: Get(Put(a, k, v), k') == Get(a, k')
    ensures Keys(Put(a, k, v)) == if Get(a, k).Some? then Keys(a) else Keys(a) + [k]
  {
    forall k' | k' != k ensures Get(Put(a, k, v), k') == Get(a, k') {
      PutGetOther(a, k, v, k');
    }
    PutGetSame(a, k, v);
    PutKeys(a, k, v);
  }

  lemma PutGetSame<K, V>(a: seq<(K, V)>, k: K, v: V)
    ensures Get(Put(a, k, v), k) == Some(v)
  {
    match IndexOf(a, k)
    case None =>
      IndexOfIs(a + [(k, v)], k, |a|);
    case Some(i) =>
      IndexOfIs(a[i := (k, v)], k, i);
  }

  lemma PutGetOther<K, V>(a: seq<(K, V)>, k: K, v: V, k': K)
    requires k' != k
    ensures Get(Put(a, k, v), k') == Get(a, k')
  {
    var r := Put(a, k, v);
    match IndexOf(a, k')
    case None =>
      IndexOfNone(r, k');
    case Some(i) =>
      IndexOfIs(r, k', i);
  }

  lemma PutKeys<K, V>(a: seq<(K, V)>, k: K, v: V)
    ensures Keys(Put(a, k, v)) == if Get(a, k).Some? then Keys(a) else Keys(a) + [k]
  {
  }

  /** Assignment never duplicates a key. */
  lemma PutDistinct<K, V>(a: seq<(K, V)>, k: K, v: V)
    requires DistinctKeys(a)
    ensures DistinctKeys(Put(a, k, v))
  {
  }

  /** Every entry after an assignment is the assigned one or was there before. */
  lemma PutEntries<K, V>(a: seq<(K, V)>, k: K, v: V)
    ensures forall e | e in Put(a, k, v) :: e == (k, v) || e in a
  {
  }

  lemma PutPut<K, V>(a: seq<(K, V)>, k: K, v1: V, v2: V)
    ensures Put(Put(a, k, v1), k, v2) == Put(a, k, v2)
  {
    match IndexOf(a, k)
    case None =>
      IndexOfIs(a + [(k, v1)], k, |a|);
    case Some(i) =>
      IndexOfIs(a[i := (k, v1)], k, i);
  }

  /** Assigning a key its current value changes nothing. */
  lemma PutSame<K, V>(a: seq<(K, V)>, k: K)
    requires Get(a, k).Some?
    ensures Put(a, k, Get(a, k).value) == a
  {
    var i := IndexOf(a, k).value;
    assert a[i := (k, a[i].1)] == a;
  }

  lemma AppendGet<K, V>(a: seq<(K, V)>, e: (K, V), k: K)
    requires e.0 != k
    ensures Get(a + [e], k) == Get(a, k)
  {
    match IndexOf(a, k)
    case None =>
      IndexOfNone(a + [e], k);
    case Some(i) =>
      IndexOfIs(a + [e], k, i);
  }

  /** Removing key `k` keeps every other entry, in order. */
  lemma {:induction false} UnsetFacts<K, V>(a: seq<(K, V)>, k: K)
    ensures Get(Unset(a, k), k) == None
    ensures forall k' | k' != k :: Get(Unset(a, k), k') == Get(a, k')
    ensures forall e | e in Unset(a, k) :: e in a && e.0 != k
  {
    if a != [] {
      UnsetFacts(a[1..], k);
      var t := Unset(a[1..], k);
      if a[0].0 != k {
        assert Unset(a, k) == [a[0]] + t;
        forall k' | k' != k ensures Get(Unset(a, k), k') == Get(a, k') {
          if a[0].0 == k' {
            IndexOfIs(a, k', 0);
            IndexOfIs(Unset(a, k), k', 0);
          } else {
            GetTail(a, k');
            GetTail(Unset(a, k), k');
            assert Unset(a, k)[1..] == t;
          }
        }
        GetTail(Unset(a, k), k);
        assert Unset(a, k)[1..] == t;
      } else {
        forall k' | k' != k ensures Get(Unset(a, k), k') == Get(a, k') {
          GetTail(a, k');
        }
      }
    } else {
      IndexOfNone(Unset(a, k), k);
    }
  }

  lemma GetTail<K, V>(a: seq<(K, V)>, k: K)
    requires a != [] && a[0].0 != k
    ensures Get(a, k) == Get(a[1..], k)
  {
  }

  /** The next integer key `array_merge` hands out: merged arrays number their integer keys 0, 1, ... */
  function NextIndex<V>(a: seq<(Key, V)>): nat
  {
    if a == [] then 0 else NextIndex(a[..|a| - 1]) + (if a[|a| - 1].0.IntKey? then 1 else 0)
  }

  /** One entry of `array_merge`: integer keys are appended under a fresh number, string keys assigned. */
  function MergeEntry<V>(acc: seq<(Key, V)>, e: (Key, V)): seq<(Key, V)>
  {
    if e.0.IntKey? then acc + [(IntKey(NextIndex(acc)), e.1)] else Put(acc, e.0, e.1)
  }

  function MergeInto<V>(acc: seq<(Key, V)>, b: seq<(Key, V)>): seq<(Key, V)>
    decreases |b|
  {
    if b == [] then acc else MergeInto(MergeEntry(acc, b[0]), b[1..])
  }

  /** `array_merge(...$arrays)`. */
  function Merge<V>(arrays: seq<seq<(Key, V)>>): seq<(Key, V)>
  {
    if arrays == [] then [] else MergeInto(Merge(arrays[..|arrays| - 1]), arrays[|arrays| - 1])
  }

  /** The value of key `k` in the last array that has it: an independent account of what `array_merge` does with string keys. */
  function LastValue<V>(arrays: seq<seq<(Key, V)>>, k: Key): Option<V>
  {
    if arrays == [] then None
    else match Get(arrays[|arrays| - 1], k)
      case Some(v) => Some(v)
      case None => LastValue(arrays[..|arrays| - 1], k)
  }

  /** One merged entry sets its own string key and leaves every other string key alone. */
  lemma MergeEntryGet<V>(acc: seq<(Key, V)>, e: (Key, V), k: Key)
    requires k.StrKey?
    ensures Get(MergeEntry(acc, e), k) == if e.0 == k then Some(e.1) else Get(acc, k)
  {
    if e.0.IntKey? {
      AppendGet(acc, (IntKey(NextIndex(acc)), e.1), k);
    } else {
      PutGet(acc, e.0, e.1);
    }
  }

  /** Merging `b` into `acc`: a string key takes `b`'s value when `b` has it and keeps `acc`'s otherwise. */
  lemma {:induction false} MergeIntoGet<V>(acc: seq<(Key, V)>, b: seq<(Key, V)>, k: Key)
    requires DistinctKeys(b) && k.StrKey?
    ensures Get(MergeInto(acc, b), k) == match Get(b, k) case Some(v) => Some(v) case None => Get(acc, k)
    decreases |b|
  {
    if b != [] {
      var acc' := MergeEntry(acc, b[0]);
      assert DistinctKeys(b[1..]);
      MergeIntoGet(acc', b[1..], k);
      MergeEntryGet(acc, b[0], k);
      if b[0].0 == k {
        IndexOfIs(b, k, 0);
        assert forall j | 0 <= j < |b[1..]| :: b[1..][j].0 != k by {
          forall j | 0 <= j < |b[1..]| ensures b[1..][j].0 != k {
            assert b[j + 1].0 != b[0].0;
          }
        }
        IndexOfNone(b[1..], k);
      } else {
        GetTail(b, k);
      }
    }
  }

  /** `array_merge`: a string key ends up with its value from the last array that has it. */
  lemma {:induction false} MergeLastWins<V>(arrays: seq<seq<(Key, V)>>, k: Key)
    requires forall i | 0 <= i < |arrays| :: DistinctKeys(arrays[i])
    requires k.StrKey?
    ensures Get(Merge(arrays), k) == LastValue(arrays, k)
    decreases |arrays|
  {
    if arrays != [] {
      MergeLastWins(arrays[..|arrays| - 1], k);
      MergeIntoGet(Merge(arrays[..|arrays| - 1]), arrays[|arrays| - 1], k);
    }
  }
}
