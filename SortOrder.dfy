/**
 * The ordering the sightings table applies when a column header is chosen:
 * lodash `orderBy(ducks, [path], [dir])` with one key path and one
 * direction. lodash promises a stable sort, so the model gives it as a
 * stable insertion sort (`OrderBy`) and proves what that promise means:
 * the result is a permutation of the input, it is sorted on the key in the
 * chosen direction, equal keys keep their order, and these three facts
 * determine the result uniquely.
 */
module SortOrder {
  import opened Sightings

  /** The value `orderBy` reads at a key path; `Absent` is `undefined`. */
  datatype Key = Num(n: int) | Text(s: string) | Absent

  /** The record field named by a (lower-cased) key path; see `KeyOfFields`. */
  function KeyOf(d: Duck, path: string): Key {
    if path == "id" then Num(d.id)
    else if path == "datetime" then Num(d.datetime)
    else if path == "species" then Text(d.species)
    else if path == "description" then Text(d.description)
    else if path == "count" then Num(d.count)
    else Absent
  }

  predicate IsField(path: string) {
    path in {"id", "datetime", "species", "description", "count"}
  }

  /**
   * What `KeyOf` reads: a number for `id`, `datetime` and `count`, the text
   * for `species` and `description`, and `undefined` for any other name.
   */
  lemma KeyOfFields(d: Duck, path: string)
    ensures KeyOf(d, path).Absent? <==> !IsField(path)
    ensures KeyOf(d, path).Text? <==> path == "species" || path == "description"
    ensures path == "species" ==> KeyOf(d, path) == Text(d.species)
    ensures path == "description" ==> KeyOf(d, path) == Text(d.description)
    ensures path == "id" ==> KeyOf(d, path) == Num(d.id)
    ensures path == "datetime" ==> KeyOf(d, path) == Num(d.datetime)
    ensures path == "count" ==> KeyOf(d, path) == Num(d.count)
  {
  }

  /** JavaScript's `<` on two strings, taken character by character (Unicode scalar values), a prefix first. */
  predicate TextLess(a: string, b: string) {
    if |a| == 0 then |b| != 0
    else |b| != 0 && (a[0] < b[0] || (a[0] == b[0] && TextLess(a[1..], b[1..])))
  }

  lemma {:induction false} TextLessIrreflexive(a: string)
    ensures !TextLess(a, a)
  {
    if |a| != 0 { TextLessIrreflexive(a[1..]); }
  }

  lemma {:induction false} TextLessTransitive(a: string, b: string, c: string)
    requires TextLess(a, b) && TextLess(b, c)
    ensures TextLess(a, c)
  {
    if |a| != 0 && a[0] == b[0] && b[0] == c[0] {
      TextLessTransitive(a[1..], b[1..], c[1..]);
    }
  }

  lemma {:induction false} TextLessTotal(a: string, b: string)
    requires a != b
    ensures TextLess(a, b) || TextLess(b, a)
  {
    if |a| != 0 && |b| != 0 && a[0] == b[0] {
      assert a == [a[0]] + a[1..] && b == [b[0]] + b[1..];
      TextLessTotal(a[1..], b[1..]);
    }
  }

  /**
   * Within one column every key has the same kind; the rank between kinds
   * only makes the order total.
   */
  function Rank(k: Key): nat {
    match k
    case Num(_) => 0
    case Text(_) => 1
    case Absent => 2
  }

  predicate KeyLess(a: Key, b: Key) {
    Rank(a) < Rank(b)
    || (a.Num? && b.Num? && a.n < b.n)
    || (a.Text? && b.Text? && TextLess(a.s, b.s))
  }

  /** `KeyLess` is a strict total order on keys. */
  lemma KeyLessIrreflexive(a: Key)
    ensures !KeyLess(a, a)
  {
    if a.Text? { TextLessIrreflexive(a.s); }
  }

  lemma KeyLessTransitive(a: Key, b: Key, c: Key)
    requires KeyLess(a, b) && KeyLess(b, c)
    ensures KeyLess(a, c)
  {
    if a.Text? && b.Text? && c.Text? { TextLessTransitive(a.s, b.s, c.s); }
  }

  lemma KeyLessTotal(a: Key, b: Key)
    requires a != b
    ensures KeyLess(a, b) || KeyLess(b, a)
  {
    if a.Text? && b.Text? { TextLessTotal(a.s, b.s); }
  }

  /** If `a` comes before `c`, any `b` comes after `a` or before `c`. */
  lemma KeyLessSplit(a: Key, b: Key, c: Key)
    requires KeyLess(a, c)
    ensures KeyLess(a, b) || KeyLess(b, c)
  {
    if a == b {
    } else if KeyLess(b, a) {
      KeyLessTransitive(b, a, c);
    } else {
      KeyLessTotal(a, b);
    }
  }

  /** `x` must be placed strictly before `y` when ordering on `path`; `asc` is `'asc'`. */
  predicate Before(x: Duck, y: Duck, path: string, asc: bool) {
    if asc then KeyLess(KeyOf(x, path), KeyOf(y, path))
    else KeyLess(KeyOf(y, path), KeyOf(x, path))
  }

  lemma BeforeAsymmetric(x: Duck, y: Duck, path: string, asc: bool)
    requires Before(x, y, path, asc)
    ensures !Before(y, x, path, asc)
  {
    var kx, ky := KeyOf(x, path), KeyOf(y, path);
    KeyLessIrreflexive(kx);
    if KeyLess(kx, ky) && KeyLess(ky, kx) { KeyLessTransitive(kx, ky, kx); }
  }

  lemma BeforeDistinctKeys(x: Duck, y: Duck, path: string, asc: bool)
    requires Before(x, y, path, asc)
    ensures KeyOf(x, path) != KeyOf(y, path)
  {
    KeyLessIrreflexive(KeyOf(x, path));
  }

  lemma BeforeTotal(x: Duck, y: Duck, path: string, asc: bool)
    requires KeyOf(x, path) != KeyOf(y, path)
    ensures Before(x, y, path, asc) || Before(y, x, path, asc)
  {
    KeyLessTotal(KeyOf(x, path), KeyOf(y, path));
  }

  /** If `x` precedes `z`, then `y` follows `x` or precedes `z`. */
  lemma BeforeSplit(x: Duck, y: Duck, z: Duck, path: string, asc: bool)
    requires Before(x, z, path, asc)
    ensures Before(x, y, path, asc) || Before(y, z, path, asc)
  {
    if asc { KeyLessSplit(KeyOf(x, path), KeyOf(y, path), KeyOf(z, path)); }
    else { KeyLessSplit(KeyOf(z, path), KeyOf(y, path), KeyOf(x, path)); }
  }

  /** No row is preceded by a row that must come after it. */
  predicate Sorted(s: seq<Duck>, path: string, asc: bool) {
    forall i, j :: 0 <= i < j < |s| ==> !Before(s[j], s[i], path, asc)
  }

  /** No row of `s` must come before `y`. */
  predicate NoneBefore(y: Duck, s: seq<Duck>, path: string, asc: bool) {
    forall j :: 0 <= j < |s| ==> !Before(s[j], y, path, asc)
  }

  lemma SortedCons(y: Duck, s: seq<Duck>, path: string, asc: bool)
    ensures Sorted([y] + s, path, asc) <==> NoneBefore(y, s, path, asc) && Sorted(s, path, asc)
  {
    var r := [y] + s;
    if NoneBefore(y, s, path, asc) && Sorted(s, path, asc) {
      forall i, j | 0 <= i < j < |r| ensures !Before(r[j], r[i], path, asc) {
        if i == 0 { assert r[j] == s[j - 1]; } else { assert r[i] == s[i - 1] && r[j] == s[j - 1]; }
      }
    }
    if Sorted(r, path, asc) {
      forall j | 0 <= j < |s| ensures !Before(s[j], y, path, asc) { assert r[0] == y && r[j + 1] == s[j]; }
      forall i, j | 0 <= i < j < |s| ensures !Before(s[j], s[i], path, asc) { assert r[i + 1] == s[i] && r[j + 1] == s[j]; }
    }
  }

  /** `[x]` when `x` has key `k`, otherwise `[]`. */
  function Tie(x: Duck, path: string, k: Key): seq<Duck> {
    if KeyOf(x, path) == k then [x] else []
  }

  /** The rows of `s` whose key is `k`, in the order `s` has them. */
  function WithKey(s: seq<Duck>, path: string, k: Key): (r: seq<Duck>)
    ensures |r| <= |s|
  {
    if |s| == 0 then [] else Tie(s[0], path, k) + WithKey(s[1..], path, k)
  }

  /** Stability: for every key, the rows with that key appear in the same order. */
  ghost predicate KeepsTies(r: seq<Duck>, s: seq<Duck>, path: string) {
    forall k :: WithKey(r, path, k) == WithKey(s, path, k)
  }

  lemma WithKeyCons(x: Duck, u: seq<Duck>, path: string, k: Key)
    ensures WithKey([x] + u, path, k) == Tie(x, path, k) + WithKey(u, path, k)
  {
    assert ([x] + u)[0] == x && ([x] + u)[1..] == u;
  }

  lemma {:induction false} WithKeyMembers(s: seq<Duck>, path: string, k: Key, y: Duck)
    ensures y in WithKey(s, path, k) <==> y in s && KeyOf(y, path) == k
  {
    if |s| != 0 {
      WithKeyMembers(s[1..], path, k, y);
      assert s == [s[0]] + s[1..];
    }
  }

  lemma {:induction false} WithKeyAppend(a: seq<Duck>, b: seq<Duck>, path: string, k: Key)
    ensures WithKey(a + b, path, k) == WithKey(a, path, k) + WithKey(b, path, k)
  {
    if |a| != 0 {
      WithKeyAppend(a[1..], b, path, k);
      calc {
        WithKey(a + b, path, k);
        { assert a + b == [a[0]] + (a[1..] + b); WithKeyCons(a[0], a[1..] + b, path, k); }
        Tie(a[0], path, k) + WithKey(a[1..] + b, path, k);
        Tie(a[0], path, k) + (WithKey(a[1..], path, k) + WithKey(b, path, k));
        (Tie(a[0], path, k) + WithKey(a[1..], path, k)) + WithKey(b, path, k);
      }
    } else {
      assert a + b == b;
    }
  }

  /** Places `x` after the rows of `t` that must precede it and before all others. */
  function Insert(x: Duck, t: seq<Duck>, path: string, asc: bool): seq<Duck> {
    if |t| == 0 then [x]
    else if Before(t[0], x, path, asc) then [t[0]] + Insert(x, t[1..], path, asc)
    else [x] + t
  }

  lemma {:induction false} InsertPermutes(x: Duck, t: seq<Duck>, path: string, asc: bool)
    ensures multiset(Insert(x, t, path, asc)) == multiset{x} + multiset(t)
  {
    if |t| != 0 {
      assert t == [t[0]] + t[1..];
      if Before(t[0], x, path, asc) { InsertPermutes(x, t[1..], path, asc); }
    }
  }

  /** Moving `x` behind a row with a different key leaves every key's rows in order. */
  lemma SwapTies(x: Duck, t0: Duck, u: seq<Duck>, v: seq<Duck>, path: string, k: Key)
    requires KeyOf(t0, path) != KeyOf(x, path)
    requires WithKey(u, path, k) == WithKey([x] + v, path, k)
    ensures WithKey([t0] + u, path, k) == WithKey([x] + ([t0] + v), path, k)
  {
    WithKeyCons(t0, u, path, k);
    WithKeyCons(x, v, path, k);
    WithKeyCons(t0, v, path, k);
    WithKeyCons(x, [t0] + v, path, k);
    var w := WithKey(v, path, k);
    if KeyOf(x, path) == k {
      assert Tie(t0, path, k) == [] && Tie(x, path, k) == [x];
      assert WithKey([t0] + u, path, k) == [x] + w;
      assert WithKey([t0] + v, path, k) == w;
    } else {
      assert Tie(x, path, k) == [];
      assert WithKey(u, path, k) == w;
      assert WithKey([x] + ([t0] + v), path, k) == WithKey([t0] + v, path, k);
    }
  }

  lemma {:induction false} InsertKeepsTies(x: Duck, t: seq<Duck>, path: string, asc: bool, k: Key)
    ensures WithKey(Insert(x, t, path, asc), path, k) == WithKey([x] + t, path, k)
  {
    if |t| != 0 && Before(t[0], x, path, asc) {
      var t0, t' := t[0], t[1..];
      assert Insert(x, t, path, asc) == [t0] + Insert(x, t', path, asc);
      assert t == [t0] + t';
      InsertKeepsTies(x, t', path, asc, k);
      BeforeDistinctKeys(t0, x, path, asc);
      SwapTies(x, t0, Insert(x, t', path, asc), t', path, k);
    }
  }

  lemma {:induction false} InsertSorted(x: Duck, t: seq<Duck>, path: string, asc: bool)
    requires Sorted(t, path, asc)
    ensures Sorted(Insert(x, t, path, asc), path, asc)
  {
    if |t| == 0 {
    } else {
      var t0, t' := t[0], t[1..];
      assert t == [t0] + t';
      SortedCons(t0, t', path, asc);
      if Before(t0, x, path, asc) {
        var u := Insert(x, t', path, asc);
        InsertSorted(x, t', path, asc);
        InsertPermutes(x, t', path, asc);
        forall j | 0 <= j < |u| ensures !Before(u[j], t0, path, asc) {
          assert u[j] in multiset(u);
          if u[j] == x {
            BeforeAsymmetric(t0, x, path, asc);
          } else {
            assert u[j] in t';
            var m :| 0 <= m < |t'| && t'[m] == u[j];
          }
        }
        SortedCons(t0, u, path, asc);
      } else {
        forall j | 0 <= j < |t| ensures !Before(t[j], x, path, asc) {
          if j > 0 && Before(t[j], x, path, asc) {
            assert t[j] == t'[j - 1];
            BeforeSplit(t[j], t0, x, path, asc);
          }
        }
        SortedCons(x, t, path, asc);
      }
    }
  }

  /**
   * lodash `orderBy(s, [path], [asc ? 'asc' : 'desc'])`: a stable sort of
   * the rows on the value at `path`.
   */
  function OrderBy(s: seq<Duck>, path: string, asc: bool): (r: seq<Duck>)
    ensures multiset(r) == multiset(s)
    ensures Sorted(r, path, asc)
    ensures KeepsTies(r, s, path)
  {
    if |s| == 0 then []
    else
      var t := OrderBy(s[1..], path, asc);
      InsertPermutes(s[0], t, path, asc);
      InsertSorted(s[0], t, path, asc);
      assert s == [s[0]] + s[1..];
      assert KeepsTies(Insert(s[0], t, path, asc), s, path) by {
        forall k ensures WithKey(Insert(s[0], t, path, asc), path, k) == WithKey(s, path, k) {
          InsertKeepsTies(s[0], t, path, asc, k);
          WithKeyCons(s[0], t, path, k);
          WithKeyCons(s[0], s[1..], path, k);
        }
      }
      Insert(s[0], t, path, asc)
  }

  lemma BeforeIrreflexive(x: Duck, path: string, asc: bool)
    ensures !Before(x, x, path, asc)
  {
    KeyLessIrreflexive(KeyOf(x, path));
  }

  /** Two rows neither of which must precede the other have the same key. */
  lemma NeitherBeforeSameKey(x: Duck, y: Duck, path: string, asc: bool)
    requires !Before(x, y, path, asc) && !Before(y, x, path, asc)
    ensures KeyOf(x, path) == KeyOf(y, path)
  {
    if KeyOf(x, path) != KeyOf(y, path) {
      BeforeTotal(x, y, path, asc);
      assert false;
    }
  }

  /** In a sorted sequence no row must precede the first one. */
  lemma SortedHeadFirst(r: seq<Duck>, y: Duck, path: string, asc: bool)
    requires Sorted(r, path, asc) && y in r
    ensures !Before(y, r[0], path, asc)
  {
    var j :| 0 <= j < |r| && r[j] == y;
    if j == 0 { BeforeIrreflexive(y, path, asc); }
  }

  lemma HeadIsMember(w: seq<Duck>)
    ensures |w| == 0 || w[0] in w
  {
  }

  /** A row lies in `r` exactly when it lies among the rows of `r` with its own key. */
  lemma InOwnTies(r: seq<Duck>, y: Duck, path: string)
    ensures y in r <==> y in WithKey(r, path, KeyOf(y, path))
  {
    WithKeyMembers(r, path, KeyOf(y, path), y);
  }

  /** Keeping ties keeps the rows: if one side is empty, so is the other. */
  lemma TiesEmpty(r1: seq<Duck>, r2: seq<Duck>, path: string)
    requires KeepsTies(r1, r2, path)
    requires |r1| == 0 || |r2| == 0
    ensures r1 == r2
  {
    forall y ensures y in r1 <==> y in r2 { InOwnTies(r1, y, path); InOwnTies(r2, y, path); }
    HeadIsMember(r1);
    HeadIsMember(r2);
  }

  /** Two sorted sequences that keep the same ties start with the same row. */
  lemma TiesSameHead(r1: seq<Duck>, r2: seq<Duck>, path: string, asc: bool)
    requires Sorted(r1, path, asc) && Sorted(r2, path, asc)
    requires KeepsTies(r1, r2, path)
    requires |r1| != 0 && |r2| != 0
    ensures r1[0] == r2[0]
  {
    var a, b := r1[0], r2[0];
    InOwnTies(r1, a, path); InOwnTies(r2, a, path);
    InOwnTies(r1, b, path); InOwnTies(r2, b, path);
    SortedHeadFirst(r2, a, path, asc);
    SortedHeadFirst(r1, b, path, asc);
    NeitherBeforeSameKey(a, b, path, asc);
    var ka := KeyOf(a, path);
    assert r1 == [a] + r1[1..] && r2 == [b] + r2[1..];
    WithKeyCons(a, r1[1..], path, ka);
    WithKeyCons(b, r2[1..], path, ka);
    assert ([a] + WithKey(r1[1..], path, ka))[0] == ([b] + WithKey(r2[1..], path, ka))[0];
  }

  /** Dropping the same first row from both sides keeps the ties. */
  lemma TiesTail(a: Duck, t1: seq<Duck>, t2: seq<Duck>, path: string)
    requires KeepsTies([a] + t1, [a] + t2, path)
    ensures KeepsTies(t1, t2, path)
  {
    forall k ensures WithKey(t1, path, k) == WithKey(t2, path, k) {
      WithKeyCons(a, t1, path, k);
      WithKeyCons(a, t2, path, k);
      var p := Tie(a, path, k);
      assert (p + WithKey(t1, path, k))[|p|..] == WithKey(t1, path, k);
      assert (p + WithKey(t2, path, k))[|p|..] == WithKey(t2, path, k);
    }
  }

  /**
   * Being sorted and keeping ties pins the order down: two sorted sequences
   * that keep the same ties are equal.
   */
  lemma {:induction false} SortedTiesUnique(r1: seq<Duck>, r2: seq<Duck>, path: string, asc: bool)
    requires Sorted(r1, path, asc) && Sorted(r2, path, asc)
    requires KeepsTies(r1, r2, path)
    ensures r1 == r2
    decreases |r1|
  {
    if |r1| == 0 || |r2| == 0 {
      TiesEmpty(r1, r2, path);
    } else {
      TiesSameHead(r1, r2, path, asc);
      var a, t1, t2 := r1[0], r1[1..], r2[1..];
      assert r1 == [a] + t1 && r2 == [a] + t2;
      TiesTail(a, t1, t2, path);
      SortedCons(a, t1, path, asc);
      SortedCons(a, t2, path, asc);
      SortedTiesUnique(t1, t2, path, asc);
    }
  }

  /** Every sorted reordering of `s` that keeps its ties is the one `OrderBy` returns. */
  lemma OrderByUnique(s: seq<Duck>, r: seq<Duck>, path: string, asc: bool)
    requires Sorted(r, path, asc) && KeepsTies(r, s, path)
    ensures r == OrderBy(s, path, asc)
  {
    var o := OrderBy(s, path, asc);
    assert KeepsTies(r, o, path);
    SortedTiesUnique(r, o, path, asc);
  }

  /**
   * Ordering again on the same key path forgets the previous order
   * entirely: in particular ascending, then descending, then ascending
   * again gives the first ascending order back.
   */
  lemma OrderByAgain(s: seq<Duck>, path: string, asc1: bool, asc2: bool)
    ensures OrderBy(OrderBy(s, path, asc1), path, asc2) == OrderBy(s, path, asc2)
  {
    var o1 := OrderBy(s, path, asc1);
    var o2 := OrderBy(o1, path, asc2);
    assert KeepsTies(o2, s, path);
    OrderByUnique(s, o2, path, asc2);
  }

  /** A list already sorted on the key comes back unchanged. */
  lemma OrderBySortedUnchanged(s: seq<Duck>, path: string, asc: bool)
    requires Sorted(s, path, asc)
    ensures OrderBy(s, path, asc) == s
  {
    OrderByUnique(s, s, path, asc);
  }

  /**
   * A key path that names none of the five fields gives every row the
   * same key, so all rows tie and the order does not change. For a plain
   * name that no row carries, neither as its own property nor as an
   * inherited one, that key is `undefined`. Deep paths such as `a.b` are
   * outside the model (see `KeyOf`).
   */
  lemma OrderByUnknownPath(s: seq<Duck>, path: string, asc: bool)
    requires !IsField(path)
    ensures OrderBy(s, path, asc) == s
  {
    forall i, j | 0 <= i < j < |s| ensures !Before(s[j], s[i], path, asc) {
      KeyLessIrreflexive(Absent);
    }
    OrderBySortedUnchanged(s, path, asc);
  }

  function Reverse(s: seq<Duck>): (r: seq<Duck>)
    ensures |r| == |s|
    ensures forall i :: 0 <= i < |s| ==> r[i] == s[|s| - 1 - i]
  {
    if |s| == 0 then [] else Reverse(s[1..]) + [s[0]]
  }

  lemma ReverseAppend(a: seq<Duck>, b: seq<Duck>)
    ensures Reverse(a + b) == Reverse(b) + Reverse(a)
  {
    var l, r := Reverse(a + b), Reverse(b) + Reverse(a);
    assert |l| == |r|;
    forall i | 0 <= i < |l| ensures l[i] == r[i] {
      if i < |b| { assert r[i] == Reverse(b)[i]; } else { assert r[i] == Reverse(a)[i - |b|]; }
    }
  }

  lemma {:induction false} WithKeyReverse(s: seq<Duck>, path: string, k: Key)
    ensures WithKey(Reverse(s), path, k) == Reverse(WithKey(s, path, k))
  {
    if |s| != 0 {
      var s0, t := s[0], s[1..];
      WithKeyReverse(t, path, k);
      assert Reverse(s) == Reverse(t) + [s0];
      WithKeyAppend(Reverse(t), [s0], path, k);
      WithKeyCons(s0, [], path, k);
      assert [s0] + [] == [s0];
      ReverseAppend(Tie(s0, path, k), WithKey(t, path, k));
      assert Reverse(Tie(s0, path, k)) == Tie(s0, path, k);
    }
  }

  predicate DistinctKeys(s: seq<Duck>, path: string) {
    forall i, j :: 0 <= i < j < |s| ==> KeyOf(s[i], path) != KeyOf(s[j], path)
  }

  lemma {:induction false} DistinctKeysTies(s: seq<Duck>, path: string, k: Key)
    requires DistinctKeys(s, path)
    ensures |WithKey(s, path, k)| <= 1
  {
    if |s| != 0 {
      var t := s[1..];
      if KeyOf(s[0], path) == k {
        forall y ensures y !in WithKey(t, path, k) {
          WithKeyMembers(t, path, k, y);
          if y in t {
            var m :| 0 <= m < |t| && t[m] == y;
            assert s[m + 1] == y;
          }
        }
        var w := WithKey(t, path, k);
        HeadIsMember(w);
      } else {
        assert DistinctKeys(t, path) by {
          forall i, j | 0 <= i < j < |t| ensures KeyOf(t[i], path) != KeyOf(t[j], path) {
            assert t[i] == s[i + 1] && t[j] == s[j + 1];
          }
        }
        DistinctKeysTies(t, path, k);
      }
    }
  }

  /** An ascending sequence read backwards is descending. */
  lemma ReverseSorted(o: seq<Duck>, path: string)
    requires Sorted(o, path, true)
    ensures Sorted(Reverse(o), path, false)
  {
    var r := Reverse(o);
    forall i, j | 0 <= i < j < |r| ensures !Before(r[j], r[i], path, false) {
      assert r[i] == o[|o| - 1 - i] && r[j] == o[|o| - 1 - j];
      assert !Before(o[|o| - 1 - i], o[|o| - 1 - j], path, true);
    }
  }

  /** When no two rows share a key, the descending order is the ascending order reversed. */
  lemma DescendingReversesAscending(s: seq<Duck>, path: string)
    requires DistinctKeys(s, path)
    ensures OrderBy(s, path, false) == Reverse(OrderBy(s, path, true))
  {
    var o := OrderBy(s, path, true);
    var r := Reverse(o);
    ReverseSorted(o, path);
    forall k ensures WithKey(r, path, k) == WithKey(s, path, k) {
      WithKeyReverse(o, path, k);
      DistinctKeysTies(s, path, k);
      var w := WithKey(s, path, k);
      assert Reverse(w) == w;
    }
    OrderByUnique(s, r, path, false);
  }
}
