/** Small value types and sequence functions shared by every component. */
module Base {

  datatype Option<+T> = None | Some(value: T)

  function Reverse<T>(xs: seq<T>): (r: seq<T>)
    ensures |r| == |xs|
  {
    if xs == [] then [] else Reverse(xs[1..]) + [xs[0]]
  }

  lemma {:induction false} ReverseSnoc<T>(xs: seq<T>, x: T)
    ensures Reverse(xs + [x]) == [x] + Reverse(xs)
  {
    if xs == [] {
    } else {
      ReverseSnoc(xs[1..], x);
      assert (xs + [x])[1..] == xs[1..] + [x];
    }
  }

  lemma {:induction false} ReverseTwice<T>(xs: seq<T>)
    ensures Reverse(Reverse(xs)) == xs
  {
    if xs == [] {
    } else {
      ReverseSnoc(Reverse(xs[1..]), xs[0]);
      ReverseTwice(xs[1..]);
    }
  }

  lemma {:induction false} Regroup<T>(a: seq<T>, b: seq<T>, c: seq<T>)
    ensures a + (b + c) == a + b + c
  {
  }

  function Elements<T>(xs: seq<T>): set<T> {
    set x | x in xs
  }

  /** `order` lists the members of a set, each once, in some order. */
  ghost predicate Enumerates<T>(order: seq<T>, members: set<T>) {
    Elements(order) == members && |order| == |members|
  }

  lemma {:induction false} ElementsConcat<T>(xs: seq<T>, ys: seq<T>)
    ensures Elements(xs + ys) == Elements(xs) + Elements(ys)
  {
  }

  lemma {:induction false} ElementsSnoc<T>(xs: seq<T>, x: T)
    ensures Elements(xs + [x]) == Elements(xs) + {x}
  {
  }

  lemma {:induction false} ElementsUpTo<T>(xs: seq<T>, i: nat)
    requires i < |xs|
    ensures Elements(xs[..i + 1]) == Elements(xs[..i]) + {xs[i]}
  {
  }

  /** The clock never goes back from one event to the next, starting at `from` and ending by `until`. */
  ghost predicate Clocked<E>(time: E -> int, from: int, events: seq<E>, until: int)
    decreases |events|
  {
    if events == [] then from <= until
    else from <= time(events[0]) && Clocked(time, time(events[0]), events[1..], until)
  }

  /** `part` stands in `whole` at `pos`. */
  predicate At<T(==)>(whole: seq<T>, pos: nat, part: seq<T>) {
    pos + |part| <= |whole| && forall i :: 0 <= i < |part| ==> part[i] == whole[pos + i]
  }

  lemma {:induction false} AtConcat<T>(whole: seq<T>, pos: nat, a: seq<T>, b: seq<T>)
    requires At(whole, pos, a + b)
    ensures At(whole, pos, a) && At(whole, pos + |a|, b)
  {
    forall i | 0 <= i < |a| ensures a[i] == whole[pos + i] {
      assert (a + b)[i] == a[i];
    }
    forall i | 0 <= i < |b| ensures b[i] == whole[pos + |a| + i] {
      assert (a + b)[|a| + i] == b[i];
    }
  }
}
