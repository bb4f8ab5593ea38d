/** Value types and sequence queries shared by every handler: the optional value,
    the handler response, the ORM-style lookups over a table held as a sequence,
    and substring search. */
module Common {

  datatype Option<T> = None | Some(value: T)

  /** What a request handler hands back to the JSON layer: a payload, or the
      message that the error response carries. */
  datatype Response<T> = Ok(payload: T) | Err(message: string)

  /** Outcome of a `get` on a table: no row, exactly one row, or several rows
      (the ORM raises DoesNotExist / MultipleObjectsReturned for the first and last). */
  datatype Lookup = Missing | Unique(index: nat) | Multiple

  /** Index of the first element satisfying `p` (`filter(...).first()`). */
  function Find<T>(s: seq<T>, p: T -> bool): (r: Option<nat>)
    ensures r.Some? ==> r.value < |s| && p(s[r.value])
    ensures r.Some? ==> forall j :: 0 <= j < r.value ==> !p(s[j])
    ensures r.None? ==> forall j :: 0 <= j < |s| ==> !p(s[j])
  {
    if |s| == 0 then None
    else if p(s[0]) then Some(0)
    else match Find(s[1..], p)
      case None => None
      case Some(i) => Some(i + 1)
  }

  /** Two tables on which `p` holds at the same positions give the same first match. */
  lemma {:induction false} FindPointwise<T>(s: seq<T>, t: seq<T>, p: T -> bool)
    requires |s| == |t| && forall i :: 0 <= i < |s| ==> p(s[i]) == p(t[i])
    ensures Find(s, p) == Find(t, p)
  {
    if |s| > 0 && !p(s[0]) {
      assert forall i :: 0 <= i < |s| - 1 ==> s[1..][i] == s[i + 1] && t[1..][i] == t[i + 1];
      FindPointwise(s[1..], t[1..], p);
    }
  }

  /** `get` semantics: tells apart no match, a single match and several matches. */
  function Get<T>(s: seq<T>, p: T -> bool): (r: Lookup)
    ensures r.Missing? <==> forall j :: 0 <= j < |s| ==> !p(s[j])
    ensures r.Unique? ==> r.index < |s| && p(s[r.index])
    ensures r.Unique? ==> forall j :: 0 <= j < |s| && j != r.index ==> !p(s[j])
    ensures r.Multiple? ==> exists i, j :: 0 <= i < j < |s| && p(s[i]) && p(s[j])
  {
    match Find(s, p)
    case None => Missing
    case Some(i) =>
      match Find(s[i + 1..], p)
      case None =>
        assert forall j :: i < j < |s| ==> s[j] == s[i + 1..][j - i - 1];
        Unique(i)
      case Some(k) =>
        assert s[i + 1 + k] == s[i + 1..][k];
        Multiple
  }

  /** A single match is what `get` returns. */
  lemma GetSingle<T>(s: seq<T>, p: T -> bool, i: nat)
    requires i < |s| && p(s[i])
    requires forall j :: 0 <= j < |s| && j != i ==> !p(s[j])
    ensures Get(s, p) == Unique(i)
  {
  }

  /** The elements satisfying `p`, in their original order. */
  function Filter<T(!new)>(s: seq<T>, p: T -> bool): (r: seq<T>)
    ensures |r| <= |s|
    ensures forall x :: x in r <==> x in s && p(x)
  {
    if |s| == 0 then []
    else
      var front := s[..|s| - 1];
      assert s == front + [s[|s| - 1]];
      Filter(front, p) + (if p(s[|s| - 1]) then [s[|s| - 1]] else [])
  }

  /** Filtering keeps the rows of a prefix and adds the next row when it matches. */
  lemma {:induction false} FilterSnoc<T(!new)>(s: seq<T>, x: T, p: T -> bool)
    ensures Filter(s + [x], p) == Filter(s, p) + (if p(x) then [x] else [])
  {
    assert (s + [x])[..|s + [x]| - 1] == s;
  }

  /** Filtering distributes over concatenation. */
  lemma {:induction false} FilterAppend<T(!new)>(a: seq<T>, b: seq<T>, p: T -> bool)
    ensures Filter(a + b, p) == Filter(a, p) + Filter(b, p)
    decreases |b|
  {
    if |b| == 0 {
      assert a + b == a;
    } else {
      var b' := b[..|b| - 1];
      var x := b[|b| - 1];
      var tail := if p(x) then [x] else [];
      assert b == b' + [x];
      assert a + b == (a + b') + [x];
      calc {
        Filter(a + b, p);
        { FilterSnoc(a + b', x, p); }
        Filter(a + b', p) + tail;
        { FilterAppend(a, b', p); }
        (Filter(a, p) + Filter(b', p)) + tail;
        Filter(a, p) + (Filter(b', p) + tail);
        { FilterSnoc(b', x, p); }
        Filter(a, p) + Filter(b, p);
      }
    }
  }

  /** Filtering a sequence whose every element matches gives it back whole. */
  lemma {:induction false} FilterAll<T(!new)>(s: seq<T>, p: T -> bool)
    requires forall x :: x in s ==> p(x)
    ensures Filter(s, p) == s
    decreases |s|
  {
    if |s| > 0 {
      var front := s[..|s| - 1];
      assert s == front + [s[|s| - 1]];
      FilterAll(front, p);
    }
  }

  /** Filtering a sequence in which nothing matches gives the empty sequence. */
  lemma {:induction false} FilterNone<T(!new)>(s: seq<T>, p: T -> bool)
    requires forall x :: x in s ==> !p(x)
    ensures Filter(s, p) == []
    decreases |s|
  {
    if |s| > 0 {
      var front := s[..|s| - 1];
      assert s == front + [s[|s| - 1]];
      FilterNone(front, p);
    }
  }

  /** Filtering by a stricter condition after a looser one is filtering by the stricter one. */
  lemma {:induction false} FilterNarrow<T(!new)>(s: seq<T>, p: T -> bool, q: T -> bool)
    requires forall x :: q(x) ==> p(x)
    ensures Filter(Filter(s, p), q) == Filter(s, q)
    decreases |s|
  {
    if |s| > 0 {
      var front := s[..|s| - 1];
      var x := s[|s| - 1];
      assert s == front + [x];
      FilterNarrow(front, p, q);
      FilterSnoc(front, x, p);
      FilterSnoc(front, x, q);
      if p(x) {
        FilterSnoc(Filter(front, p), x, q);
      } else {
        assert Filter(s, p) == Filter(front, p);
      }
    }
  }

  /** `needle` occurs as a contiguous piece of `hay` (SQL `LIKE '%needle%'`). */
  predicate Contains(hay: string, needle: string)
    decreases |hay|
  {
    needle <= hay || (|hay| > 0 && Contains(hay[1..], needle))
  }

  /** An occurrence at position `i` is found by the search. */
  lemma {:induction false} ContainsFrom(hay: string, needle: string, i: nat)
    requires i <= |hay| - |needle| && needle <= hay[i..]
    ensures Contains(hay, needle)
    decreases i
  {
    if i == 0 {
      assert hay[0..] == hay;
    } else {
      assert hay[1..][i - 1..] == hay[i..];
      ContainsFrom(hay[1..], needle, i - 1);
    }
  }

  /** What the search finds is an occurrence at some position. */
  lemma {:induction false} ContainsWitness(hay: string, needle: string) returns (i: nat)
    requires Contains(hay, needle)
    ensures i <= |hay| - |needle| && needle <= hay[i..]
    decreases |hay|
  {
    if needle <= hay {
      assert hay[0..] == hay;
      i := 0;
    } else {
      var k := ContainsWitness(hay[1..], needle);
      assert hay[1..][k..] == hay[k + 1..];
      i := k + 1;
    }
  }

  /** `needle` occurs in `hay` at some position. */
  predicate Occurs(hay: string, needle: string)
  {
    exists i :: 0 <= i <= |hay| - |needle| && needle <= hay[i..]
  }

  /** Substring search agrees with its positional definition. */
  lemma ContainsAt(hay: string, needle: string)
    ensures Contains(hay, needle) <==> Occurs(hay, needle)
  {
    if Contains(hay, needle) {
      var i := ContainsWitness(hay, needle);
    }
    forall i | 0 <= i <= |hay| - |needle| && needle <= hay[i..]
      ensures Contains(hay, needle)
    {
      ContainsFrom(hay, needle, i);
    }
  }
}
