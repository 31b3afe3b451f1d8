/** The few pieces of Python's runtime the transformer relies on: optional
    values, the exceptions it can raise, and generators that yield a finite
    number of items and then either stop or raise. */
module Py {

  datatype Option<+T> = None | Some(value: T) {
    function GetOr(default: T): T {
      match this
      case Some(v) => v
      case None => default
    }
  }

  /** The exception classes the modelled code can raise. */
  datatype Exception = KeyError | TypeError | AttributeError | AssertionError

  /** The outcome of an ordinary (non-generator) call: a value or an exception. */
  datatype Result<+T> = Ok(value: T) | Raise(exc: Exception)

  /** What a generator produces once it is drained: the items it yielded, in
      order, and the exception it raised afterwards, if any. A generator that
      raises yields nothing more. */
  datatype Stream<+I> = Stream(items: seq<I>, raised: Option<Exception>)

  function Empty<I>(): Stream<I> { Stream([], None) }

  function Fail<I>(e: Exception): Stream<I> { Stream([], Some(e)) }

  /** `yield from a; yield from b`: b only runs when a did not raise. */
  function Then<I>(a: Stream<I>, b: Stream<I>): (r: Stream<I>)
    ensures a.raised.Some? ==> r == a
    ensures a.raised.None? ==> r.items == a.items + b.items && r.raised == b.raised
  {
    if a.raised.Some? then a else Stream(a.items + b.items, b.raised)
  }

  /** `for x in s: yield from f(x)`: stops at the first exception, whether it
      comes from s itself or from one of the f(x). */
  function Bind<I, J>(s: Stream<I>, f: I -> Stream<J>): Stream<J>
    decreases |s.items|
  {
    if s.items == [] then Stream([], s.raised)
    else Then(f(s.items[0]), Bind(Stream(s.items[1..], s.raised), f))
  }

  /** `for x in s: yield g(x)`: one item out per item in, the source's
      exception passed on. */
  function Map<I, J>(s: Stream<I>, g: I -> J): Stream<J> {
    Stream(seq(|s.items|, i requires 0 <= i < |s.items| => g(s.items[i])), s.raised)
  }

  lemma ThenAssoc<I>(a: Stream<I>, b: Stream<I>, c: Stream<I>)
    ensures Then(Then(a, b), c) == Then(a, Then(b, c))
  {
    if a.raised.None? && b.raised.None? {
      assert (a.items + b.items) + c.items == a.items + (b.items + c.items);
    }
  }

  /** Once the source raises, so does everything bound to it. */
  lemma {:induction false} BindKeepsRaise<I, J>(s: Stream<I>, f: I -> Stream<J>)
    requires s.raised.Some?
    ensures Bind(s, f).raised.Some?
    decreases |s.items|
  {
    if s.items != [] {
      BindKeepsRaise(Stream(s.items[1..], s.raised), f);
    }
  }

  /** Binding distributes over sequencing: draining `a` then `b` and mapping
      every item is the same as mapping `a`, then mapping `b`. */
  lemma {:induction false} BindThen<I, J>(a: Stream<I>, b: Stream<I>, f: I -> Stream<J>)
    ensures Bind(Then(a, b), f) == Then(Bind(a, f), Bind(b, f))
    decreases |a.items|
  {
    if a.raised.Some? {
      BindKeepsRaise(a, f);
    } else if a.items == [] {
      assert Then(a, b) == b;
    } else {
      var rest := Stream(a.items[1..], None);
      assert Then(a, b).items[1..] == rest.items + b.items;
      calc {
        Bind(Then(a, b), f);
        Then(f(a.items[0]), Bind(Then(rest, b), f));
        { BindThen(rest, b, f); }
        Then(f(a.items[0]), Then(Bind(rest, f), Bind(b, f)));
        { ThenAssoc(f(a.items[0]), Bind(rest, f), Bind(b, f)); }
        Then(Then(f(a.items[0]), Bind(rest, f)), Bind(b, f));
      }
    }
  }

  /** Every item of a bound stream comes from the image of some item of the
      source. */
  lemma {:induction false} BindItemOrigin<I, J>(s: Stream<I>, f: I -> Stream<J>, y: J)
    requires y in Bind(s, f).items
    ensures exists x :: x in s.items && y in f(x).items
    decreases |s.items|
  {
    if s.items != [] {
      var x := s.items[0];
      var tail := Stream(s.items[1..], s.raised);
      if y !in f(x).items {
        BindItemOrigin(tail, f, y);
        var x' :| x' in tail.items && y in f(x').items;
        assert x' in s.items;
      }
    }
  }

  /** A bound stream that did not raise contains the whole image of every
      source item. */
  lemma {:induction false} BindItemComplete<I, J>(s: Stream<I>, f: I -> Stream<J>, x: I, y: J)
    requires Bind(s, f).raised.None?
    requires x in s.items && y in f(x).items
    ensures y in Bind(s, f).items
    decreases |s.items|
  {
    var tail := Stream(s.items[1..], s.raised);
    if x != s.items[0] {
      BindItemComplete(tail, f, x, y);
    }
  }

  /** A bound stream that did not raise drained its source, and no image
      raised either. */
  lemma {:induction false} BindNoRaise<I, J>(s: Stream<I>, f: I -> Stream<J>)
    requires Bind(s, f).raised.None?
    ensures s.raised.None?
    ensures forall x :: x in s.items ==> f(x).raised.None?
    decreases |s.items|
  {
    if s.items != [] {
      var tail := Stream(s.items[1..], s.raised);
      assert f(s.items[0]).raised.None?;
      BindNoRaise(tail, f);
    }
  }

  /** Re-yielding every item one by one changes nothing. */
  lemma {:induction false} BindUnit<I>(s: Stream<I>)
    ensures Bind(s, x => Stream([x], None)) == s
    decreases |s.items|
  {
    if s.items != [] {
      var tail := Stream(s.items[1..], s.raised);
      BindUnit(tail);
      assert s.items == [s.items[0]] + tail.items;
    }
  }

  /** When no image raises, a bound stream raises exactly what its source raised. */
  lemma {:induction false} BindQuiet<I, J>(s: Stream<I>, f: I -> Stream<J>)
    requires forall x :: x in s.items ==> f(x).raised.None?
    ensures Bind(s, f).raised == s.raised
    decreases |s.items|
  {
    if s.items != [] {
      BindQuiet(Stream(s.items[1..], s.raised), f);
    }
  }

  /** When every image is empty, only the source's exception is left. */
  lemma {:induction false} BindNothing<I, J>(s: Stream<I>, f: I -> Stream<J>)
    requires forall x :: x in s.items ==> f(x) == Empty()
    ensures Bind(s, f) == Stream([], s.raised)
    decreases |s.items|
  {
    if s.items != [] {
      BindNothing(Stream(s.items[1..], s.raised), f);
    }
  }
}
