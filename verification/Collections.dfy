/** Small generic helpers shared by the models. */
module Collections {

  datatype Option<+T> = None | Some(value: T)

  datatype Result<+T, +E> = Ok(value: T) | Err(error: E)

  /** Array.prototype.filter: the elements that satisfy `p`, in order. */
  function Filter<T>(s: seq<T>, p: T -> bool): seq<T>
  {
    if s == [] then []
    else if p(s[0]) then [s[0]] + Filter(s[1..], p)
    else Filter(s[1..], p)
  }

  lemma {:induction false} FilterMember<T>(s: seq<T>, p: T -> bool, x: T)
    ensures x in Filter(s, p) <==> x in s && p(x)
  {
    if s != [] {
      assert s == [s[0]] + s[1..];
      FilterMember(s[1..], p, x);
    }
  }

  lemma FilterCons<T>(x: T, rest: seq<T>, p: T -> bool)
    ensures Filter([x] + rest, p) == (if p(x) then [x] else []) + Filter(rest, p)
    ensures Filter([], p) == []
  {
    assert ([x] + rest)[1..] == rest;
  }

  /** Array.prototype.map. */
  function Map<T, U>(s: seq<T>, f: T -> U): (r: seq<U>)
    ensures |r| == |s| && forall i | 0 <= i < |s| :: r[i] == f(s[i])
  {
    if s == [] then [] else [f(s[0])] + Map(s[1..], f)
  }

  lemma {:induction false} MapAppend<T, U>(a: seq<T>, b: seq<T>, f: T -> U)
    ensures Map(a + b, f) == Map(a, f) + Map(b, f)
  {
    if a == [] {
      assert a + b == b;
    } else {
      assert (a + b)[1..] == a[1..] + b;
      MapAppend(a[1..], b, f);
    }
  }

  lemma MapFirst<T, U>(x: T, s: seq<T>, f: T -> U)
    ensures Map([x] + s, f) == [f(x)] + Map(s, f)
  {
    assert ([x] + s)[1..] == s;
  }

  /** Array.prototype.join(''). */
  function Concat(ss: seq<string>): string
  {
    if ss == [] then "" else ss[0] + Concat(ss[1..])
  }

  lemma {:induction false} ConcatAppend(a: seq<string>, b: seq<string>)
    ensures Concat(a + b) == Concat(a) + Concat(b)
  {
    if a == [] {
      assert a + b == b;
    } else {
      assert (a + b)[1..] == a[1..] + b;
      ConcatAppend(a[1..], b);
    }
  }

  lemma {:induction false} FilterNotLonger<T>(s: seq<T>, p: T -> bool)
    ensures |Filter(s, p)| <= |s|
  {
    if s != [] {
      FilterNotLonger(s[1..], p);
    }
  }

  lemma {:induction false} FilterAppend<T>(a: seq<T>, b: seq<T>, p: T -> bool)
    ensures Filter(a + b, p) == Filter(a, p) + Filter(b, p)
  {
    if a == [] {
      assert a + b == b;
    } else {
      assert (a + b)[1..] == a[1..] + b;
      FilterAppend(a[1..], b, p);
    }
  }

  /** `r` is the last value that `f` finds in the list, or `default` when it finds none. */
  ghost predicate IsLast<E, T(!new)>(s: seq<E>, f: E -> Option<T>, default: T, r: T)
  {
    || (r == default && forall i :: 0 <= i < |s| ==> f(s[i]).None?)
    || exists i :: 0 <= i < |s| && f(s[i]) == Some(r) && forall j :: i < j < |s| ==> f(s[j]).None?
  }

  lemma LastOneMore<E, T(!new)>(s: seq<E>, e: E, f: E -> Option<T>, default: T, r: T)
    requires IsLast(s, f, default, r)
    ensures IsLast(s + [e], f, default, if f(e).Some? then f(e).value else r)
  {
    var all := s + [e];
    assert all[|s|] == e;
    if f(e).None? {
      assert forall i :: 0 <= i < |s| ==> all[i] == s[i];
      if i :| 0 <= i < |s| && f(s[i]) == Some(r) && forall j :: i < j < |s| ==> f(s[j]).None? {
        assert f(all[i]) == Some(r);
      }
    }
  }

  /** Array.prototype.reduce. */
  function Fold<S, E>(f: (S, E) -> S, s: S, es: seq<E>): S
    decreases |es|
  {
    if es == [] then s else Fold(f, f(s, es[0]), es[1..])
  }

  lemma {:induction false} FoldAppend<S, E>(f: (S, E) -> S, s: S, a: seq<E>, b: seq<E>)
    ensures Fold(f, s, a + b) == Fold(f, Fold(f, s, a), b)
    decreases |a|
  {
    if a == [] {
      assert a + b == b;
    } else {
      assert (a + b)[1..] == a[1..] + b;
      FoldAppend(f, f(s, a[0]), a[1..], b);
    }
  }

  lemma FoldOne<S, E>(f: (S, E) -> S, s: S, a: seq<E>, e: E)
    ensures Fold(f, s, a + [e]) == f(Fold(f, s, a), e)
  {
    FoldAppend(f, s, a, [e]);
    var t := Fold(f, s, a);
    assert [e][1..] == [];
    assert Fold(f, t, [e]) == Fold(f, f(t, e), []);
  }

  lemma ConcatOne(ss: seq<string>, s: string)
    ensures Concat(ss + [s]) == Concat(ss) + s
  {
    ConcatAppend(ss, [s]);
    assert Concat([s]) == s + Concat([]);
  }
}
