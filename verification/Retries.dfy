/** Retrying wrappers around an event handler, and the three ways to stack them. */
module Retries {
  /** The base listener answers its k-th call, counted from 0, with success iff `answers(k)`. A handler is
      what it does to the number of calls made so far, and whether it returns nil. */
  type Handler = nat -> (nat, bool)

  type Wrapper<!H(!new)> = H -> H

  function Base(answers: nat -> bool): Handler {
    (calls: nat) => (calls + 1, answers(calls))
  }

  /** `left` more attempts at `next`; with none left the wrapper returns an error. */
  function Attempts(next: Handler, left: nat, calls: nat): (nat, bool) {
    if left == 0 then (calls, false)
    else
      var (after, ok) := next(calls);
      if ok then (after, true) else Attempts(next, left - 1, after)
  }

  /** A negative limit allows no attempt at all. */
  function Tries(maxRetries: int): nat {
    if maxRetries < 0 then 0 else maxRetries + 1
  }

  function Retry(maxRetries: int): Wrapper<Handler> {
    (next: Handler) => (calls: nat) => Attempts(next, Tries(maxRetries), calls)
  }

  /** The loop of a retrying wrapper; the middleware and the listener decorator share it. */
  method RetryLoop(next: Handler, maxRetries: int, calls: nat) returns (after: nat, ok: bool)
    ensures (after, ok) == Retry(maxRetries)(next)(calls)
  {
    after, ok := calls, false;
    var attempt := 0;
    while attempt <= maxRetries
      invariant 0 <= attempt <= Tries(maxRetries)
      invariant Attempts(next, Tries(maxRetries), calls) == Attempts(next, Tries(maxRetries) - attempt, after)
    {
      var result := next(after);
      after := result.0;
      if result.1 {
        return after, true;
      }
      attempt := attempt + 1;
    }
    return after, false;
  }

  // ---------------------------------------------------------------- stacking

  /** The first wrapper innermost. */
  function InnerFirst<H(!new)>(ws: seq<Wrapper<H>>, h: H): H {
    if ws == [] then h else ws[|ws| - 1](InnerFirst(ws[..|ws| - 1], h))
  }

  /** The first wrapper outermost. */
  function OuterFirst<H(!new)>(ws: seq<Wrapper<H>>, h: H): H {
    if ws == [] then h else ws[0](OuterFirst(ws[1..], h))
  }

  method Chain<H(!new)>(ws: seq<Wrapper<H>>, final: H) returns (h: H)
    ensures h == OuterFirst(ws, final)
  {
    h := final;
    var i := |ws| - 1;
    while i >= 0
      invariant -1 <= i < |ws|
      invariant h == OuterFirst(ws[i + 1..], final)
    {
      assert ws[i..][1..] == ws[i + 1..];
      h := ws[i](h);
      i := i - 1;
    }
  }

  /** Compose, and the event bus over its middleware. */
  method Compose<H(!new)>(listener: H, ws: seq<Wrapper<H>>) returns (h: H)
    ensures h == InnerFirst(ws, listener)
  {
    h := listener;
    for i := 0 to |ws|
      invariant h == InnerFirst(ws[..i], listener)
    {
      assert ws[..i + 1][..i] == ws[..i];
      h := ws[i](h);
    }
    assert ws[..|ws|] == ws;
  }

  /** Handlers that pass a log on, and wrappers that first write their own name into it. */
  type Logging = seq<string> -> seq<string>

  function Named(name: string): Wrapper<Logging> {
    (next: Logging) => (log: seq<string>) => next(log + [name])
  }

  function AllNamed(names: seq<string>): seq<Wrapper<Logging>> {
    seq<Wrapper<Logging>>(|names|, k requires 0 <= k < |names| => Named(names[k]))
  }

  function Backwards(names: seq<string>): seq<string> {
    seq(|names|, k requires 0 <= k < |names| => names[|names| - 1 - k])
  }

  lemma {:induction false} OuterFirstOrder(names: seq<string>, h: Logging, log: seq<string>)
    ensures OuterFirst(AllNamed(names), h)(log) == h(log + names)
  {
    if names == [] {
      assert log + names == log;
    } else {
      OuterFirstOrder(names[1..], h, log + [names[0]]);
      assert AllNamed(names)[1..] == AllNamed(names[1..]);
      assert log + [names[0]] + names[1..] == log + names;
    }
  }

  lemma {:induction false} InnerFirstOrder(names: seq<string>, h: Logging, log: seq<string>)
    ensures InnerFirst(AllNamed(names), h)(log) == h(log + Backwards(names))
  {
    if names == [] {
      assert log + Backwards(names) == log;
    } else {
      var init, last := names[..|names| - 1], names[|names| - 1];
      InnerFirstOrder(init, h, log + [last]);
      assert AllNamed(names)[..|names| - 1] == AllNamed(init);
      assert log + [last] + Backwards(init) == log + Backwards(names);
    }
  }

  /** Chained wrappers are entered from the first to the last, composed ones from the last to the first, and the
      handler comes after all of them. */
  lemma {:induction false} EntryOrder(names: seq<string>, h: Logging, log: seq<string>)
    ensures OuterFirst(AllNamed(names), h)(log) == h(log + names)
    ensures InnerFirst(AllNamed(names), h)(log) == h(log + Backwards(names))
  {
    OuterFirstOrder(names, h, log);
    InnerFirstOrder(names, h, log);
  }

  function RetryAll(rs: seq<int>): seq<Wrapper<Handler>> {
    seq<Wrapper<Handler>>(|rs|, k requires 0 <= k < |rs| => Retry(rs[k]))
  }

  /** (r_1 + 1) * ... * (r_n + 1); a negative limit makes it 0. */
  function Product(rs: seq<int>): nat {
    if rs == [] then 1 else (if rs[0] < 0 then 0 else rs[0] + 1) * Product(rs[1..])
  }

  // ---------------------------------------------------------------- what a stack amounts to

  /** `h` calls the base listener until its first success, but at most n times. */
  ghost predicate CallsUpTo(h: Handler, answers: nat -> bool, n: nat) {
    forall calls: nat {:induction false} :: h(calls) == Attempts(Base(answers), n, calls)
  }

  /** Up to n attempts: the calls made are those up to and including the first success, or all n. */
  lemma {:induction false} AttemptsMeaning(answers: nat -> bool, n: nat, calls: nat)
    ensures var (after, ok) := Attempts(Base(answers), n, calls);
            && calls <= after <= calls + n
            && (ok <==> exists k: nat | calls <= k < calls + n :: answers(k))
            && (ok ==> after > calls && answers(after - 1) && forall k: nat | calls <= k < after - 1 :: !answers(k))
            && (!ok ==> after == calls + n)
  {
    if n > 0 && !answers(calls) {
      AttemptsMeaning(answers, n - 1, calls + 1);
    }
  }

  /** m rounds of up to n attempts are up to m * n attempts. */
  lemma {:induction false} RoundsMultiply(h: Handler, answers: nat -> bool, n: nat, m: nat, calls: nat)
    requires CallsUpTo(h, answers, n)
    ensures Attempts(h, m, calls) == Attempts(Base(answers), m * n, calls)
  {
    if m > 0 {
      var (after, ok) := Attempts(Base(answers), n, calls);
      assert h(calls) == (after, ok);
      assert m * n == n + (m - 1) * n;
      AttemptsAdd(answers, n, (m - 1) * n, calls);
      if !ok {
        RoundsMultiply(h, answers, n, m - 1, after);
      }
    }
  }

  lemma {:induction false} AttemptsAdd(answers: nat -> bool, a: nat, b: nat, calls: nat)
    ensures Attempts(Base(answers), a + b, calls) ==
            var (after, ok) := Attempts(Base(answers), a, calls);
            if ok then (after, true) else Attempts(Base(answers), b, after)
  {
    if a > 0 && !answers(calls) {
      AttemptsAdd(answers, a - 1, b, calls + 1);
    }
  }

  lemma {:induction false} WrapMultiplies(r: int, h: Handler, answers: nat -> bool, n: nat)
    requires CallsUpTo(h, answers, n)
    ensures CallsUpTo(Retry(r)(h), answers, Tries(r) * n)
  {
    forall calls: nat ensures Retry(r)(h)(calls) == Attempts(Base(answers), Tries(r) * n, calls) {
      RoundsMultiply(h, answers, n, Tries(r), calls);
    }
  }

  lemma {:induction false} ProductSnoc(rs: seq<int>, r: int)
    ensures Product(rs + [r]) == Tries(r) * Product(rs)
  {
    if rs == [] {
      assert Product([r]) == Tries(r) * Product([r][1..]) == Tries(r) * Product([]);
    } else {
      assert (rs + [r])[1..] == rs[1..] + [r];
      ProductSnoc(rs[1..], r);
      Swap(Tries(rs[0]), Tries(r), Product(rs[1..]));
    }
  }

  lemma Swap(a: nat, b: nat, p: nat)
    ensures a * (b * p) == b * (a * p)
  {
  }

  lemma {:induction false} OuterFirstMultiplies(rs: seq<int>, answers: nat -> bool)
    ensures CallsUpTo(OuterFirst(RetryAll(rs), Base(answers)), answers, Product(rs))
  {
    if rs != [] {
      OuterFirstMultiplies(rs[1..], answers);
      assert RetryAll(rs)[1..] == RetryAll(rs[1..]);
      WrapMultiplies(rs[0], OuterFirst(RetryAll(rs[1..]), Base(answers)), answers, Product(rs[1..]));
    }
  }

  lemma {:induction false} InnerFirstMultiplies(rs: seq<int>, answers: nat -> bool)
    ensures CallsUpTo(InnerFirst(RetryAll(rs), Base(answers)), answers, Product(rs))
  {
    if rs != [] {
      var init, r := rs[..|rs| - 1], rs[|rs| - 1];
      InnerFirstMultiplies(init, answers);
      assert RetryAll(rs)[..|rs| - 1] == RetryAll(init);
      WrapMultiplies(r, InnerFirst(RetryAll(init), Base(answers)), answers, Product(init));
      assert rs == init + [r];
      ProductSnoc(init, r);
    }
  }

  /** Stacked in either order, retrying wrappers with limits r_1..r_n do what one wrapper with
      (r_1 + 1) * ... * (r_n + 1) - 1 retries does. */
  lemma {:induction false} NestedRetriesMultiply(rs: seq<int>, answers: nat -> bool, calls: nat)
    ensures OuterFirst(RetryAll(rs), Base(answers))(calls) == Retry(Product(rs) - 1)(Base(answers))(calls)
    ensures InnerFirst(RetryAll(rs), Base(answers))(calls) == Retry(Product(rs) - 1)(Base(answers))(calls)
  {
    OuterFirstMultiplies(rs, answers);
    InnerFirstMultiplies(rs, answers);
  }

  /** Hence a stack calls the listener up to its first success or exactly the product of the tries, and
      returns nil if and only if one of those calls succeeded. */
  lemma {:induction false} StackMeaning(rs: seq<int>, answers: nat -> bool, calls: nat)
    ensures var (after, ok) := OuterFirst(RetryAll(rs), Base(answers))(calls);
            && (after, ok) == InnerFirst(RetryAll(rs), Base(answers))(calls)
            && (ok <==> exists k: nat | calls <= k < calls + Product(rs) :: answers(k))
            && (ok ==> after > calls && answers(after - 1) && forall k: nat | calls <= k < after - 1 :: !answers(k))
            && (!ok ==> after == calls + Product(rs))
  {
    NestedRetriesMultiply(rs, answers, calls);
    AttemptsMeaning(answers, Product(rs), calls);
  }
}
