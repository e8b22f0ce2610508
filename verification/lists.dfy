/** The list editing shared by the two multi-select inputs and the sidebar's
    expansion state: `list.filter((x) => x !== v)` and the toggle that
    removes a present value or appends an absent one. */
module Lists {

  /** Number of occurrences of `v` in `xs`. */
  function Count(xs: seq<string>, v: string): nat {
    multiset(xs)[v]
  }

  /** `xs.filter((x) => x !== v)`: every occurrence of `v` is dropped and
      every other value keeps its number of occurrences. */
  function Remove(xs: seq<string>, v: string): (r: seq<string>)
    ensures v !in r
    ensures forall x :: x != v ==> Count(r, x) == Count(xs, x)
    ensures |r| == |xs| - Count(xs, v)
  {
    if xs == [] then []
    else
      assert xs == [xs[0]] + xs[1..];
      if xs[0] == v then Remove(xs[1..], v) else [xs[0]] + Remove(xs[1..], v)
  }

  /** Removing distributes over concatenation, so the values that stay keep
      their relative order. */
  lemma {:induction false} RemoveAppend(a: seq<string>, b: seq<string>, v: string)
    ensures Remove(a + b, v) == Remove(a, v) + Remove(b, v)
  {
    if a == [] {
      assert a + b == b;
    } else {
      assert (a + b)[0] == a[0];
      assert (a + b)[1..] == a[1..] + b;
      RemoveAppend(a[1..], b, v);
    }
  }

  /** Removing a value that is not there changes nothing. */
  lemma {:induction false} RemoveAbsent(xs: seq<string>, v: string)
    requires v !in xs
    ensures Remove(xs, v) == xs
  {
    if xs != [] {
      RemoveAbsent(xs[1..], v);
    }
  }

  /** Removing twice is removing once. */
  lemma RemoveIdempotent(xs: seq<string>, v: string)
    ensures Remove(Remove(xs, v), v) == Remove(xs, v)
  {
    RemoveAbsent(Remove(xs, v), v);
  }

  /** `xs.includes(v) ? xs.filter((x) => x !== v) : [...xs, v]`. */
  function Toggle(xs: seq<string>, v: string): (r: seq<string>)
    ensures v in r <==> v !in xs
    ensures forall x :: x != v ==> Count(r, x) == Count(xs, x)
    ensures v !in xs ==> r == xs + [v]
    ensures v in xs ==> r == Remove(xs, v)
  {
    if v in xs then Remove(xs, v) else xs + [v]
  }

  /** Toggling an absent value twice restores the list exactly. */
  lemma ToggleTwiceAbsent(xs: seq<string>, v: string)
    requires v !in xs
    ensures Toggle(Toggle(xs, v), v) == xs
  {
    RemoveAppend(xs, [v], v);
    RemoveAbsent(xs, v);
    assert Remove([v], v) == [];
  }

  /** Toggling a present value twice moves it to the end, once. */
  lemma ToggleTwicePresent(xs: seq<string>, v: string)
    requires v in xs
    ensures Toggle(Toggle(xs, v), v) == Remove(xs, v) + [v]
  {
  }
}
