/** The listener registry and its generated subscription IDs. */
module Registries {
  import opened Basics

  type Listener = int

  datatype Registry = Registry(listeners: map<string, Listener>, nextID: nat)

  const NEW_REGISTRY := Registry(map[], 1)

  // ---------------------------------------------------------------- decimal printing

  const DIGITS: seq<char> := "0123456789"

  /** %d of a natural number. */
  function Decimal(n: nat): string {
    if n < 10 then [DIGITS[n]] else Decimal(n / 10) + [DIGITS[n % 10]]
  }

  lemma DigitsDiffer(i: nat, j: nat)
    requires i < 10 && j < 10 && DIGITS[i] == DIGITS[j]
    ensures i == j
  {
  }

  lemma {:induction false} DecimalInjective(m: nat, n: nat)
    requires Decimal(m) == Decimal(n)
    ensures m == n
  {
    var s := Decimal(m);
    DecimalLength(m);
    DecimalLength(n);
    if m >= 10 {
      assert s[..|s| - 1] == Decimal(m / 10) && s[|s| - 1] == DIGITS[m % 10];
      assert s[..|s| - 1] == Decimal(n / 10) && s[|s| - 1] == DIGITS[n % 10];
      DecimalInjective(m / 10, n / 10);
      DigitsDiffer(m % 10, n % 10);
    } else {
      DigitsDiffer(m, n);
    }
  }

  lemma {:induction false} DecimalLength(n: nat)
    ensures |Decimal(n)| == 1 <==> n < 10
    ensures |Decimal(n)| >= 1
  {
    if n >= 10 {
      assert |Decimal(n / 10)| >= 1;
    }
  }

  const PREFIX := "listener-"

  function AutoID(k: nat): string {
    PREFIX + Decimal(k)
  }

  lemma {:induction false} AutoIDInjective(j: nat, k: nat)
    requires AutoID(j) == AutoID(k)
    ensures j == k
  {
    assert AutoID(j)[|PREFIX|..] == Decimal(j) && AutoID(k)[|PREFIX|..] == Decimal(k);
    DecimalInjective(j, k);
  }

  // ---------------------------------------------------------------- operations

  function IDFor(r: Registry, id: string): string {
    if id == "" then AutoID(r.nextID) else id
  }

  function Subscribed(r: Registry, id: string, listener: Listener): Registry {
    Registry(r.listeners[IDFor(r, id) := listener], if id == "" then r.nextID + 1 else r.nextID)
  }

  function Unsubscribed(r: Registry, id: string): Registry {
    r.(listeners := r.listeners - {id})
  }

  class ListenerRegistry {
    var listeners: map<string, Listener>
    var nextID: nat

    function Value(): Registry
      reads this
    {
      Registry(listeners, nextID)
    }

    constructor ()
      ensures Value() == NEW_REGISTRY
    {
      listeners, nextID := map[], 1;
    }

    method Subscribe(id: string, listener: Listener) returns (given: string)
      modifies this
      ensures Value() == Subscribed(old(Value()), id, listener) && given == IDFor(old(Value()), id)
    {
      given := id;
      if id == "" {
        given := AutoID(nextID);
        nextID := nextID + 1;
      }
      listeners := listeners[given := listener];
    }

    method Unsubscribe(id: string) returns (found: bool)
      modifies this
      ensures found == (id in old(listeners)) && Value() == Unsubscribed(old(Value()), id)
    {
      found := id in listeners;
      listeners := listeners - {id};
    }

    method UnsubscribeAll()
      modifies this
      ensures Value() == Registry(map[], old(nextID))
    {
      listeners := map[];
    }

    /** Every live subscription exactly once, in no particular order. */
    method GetListeners() returns (infos: seq<(string, Listener)>)
      ensures |infos| == |listeners|
      ensures forall i, j | 0 <= i < j < |infos| :: infos[i].0 != infos[j].0
      ensures forall i | 0 <= i < |infos| :: infos[i].0 in listeners && infos[i].1 == listeners[infos[i].0]
      ensures forall id | id in listeners :: exists i :: 0 <= i < |infos| && infos[i].0 == id
    {
      infos := [];
      var rest := listeners.Keys;
      while rest != {}
        invariant rest <= listeners.Keys
        invariant |infos| + |rest| == |listeners|
        invariant forall i | 0 <= i < |infos| :: infos[i].0 in listeners && infos[i].0 !in rest
        invariant forall i | 0 <= i < |infos| :: infos[i].1 == listeners[infos[i].0]
        invariant forall i, j | 0 <= i < j < |infos| :: infos[i].0 != infos[j].0
        invariant forall id | id in listeners && id !in rest :: exists i :: 0 <= i < |infos| && infos[i].0 == id
        decreases rest
      {
        var id :| id in rest;
        ghost var before := infos;
        infos := infos + [(id, listeners[id])];
        rest := rest - {id};
        assert infos[|before|].0 == id;
        assert forall i | 0 <= i < |before| :: infos[i] == before[i];
      }
    }
  }

  // ---------------------------------------------------------------- runs

  datatype Op = Sub(id: string, listener: Listener) | Unsub(id: string) | UnsubAll

  function Do(r: Registry, op: Op): Registry {
    match op
    case Sub(id, listener) => Subscribed(r, id, listener)
    case Unsub(id) => Unsubscribed(r, id)
    case UnsubAll => r.(listeners := map[])
  }

  function After(r: Registry, ops: seq<Op>): Registry {
    if ops == [] then r else Do(After(r, ops[..|ops| - 1]), ops[|ops| - 1])
  }

  /** The subscriptions without an ID so far. */
  function Autos(ops: seq<Op>): nat {
    if ops == [] then 0
    else Autos(ops[..|ops| - 1]) + if ops[|ops| - 1].Sub? && ops[|ops| - 1].id == "" then 1 else 0
  }

  /** The ID that operation k subscribes, if it does: its own, or the next generated one, counted from 1. */
  function Names(ops: seq<Op>, k: nat): Option<string>
    requires k < |ops|
  {
    if !ops[k].Sub? then None
    else if ops[k].id != "" then Some(ops[k].id)
    else Some(AutoID(Autos(ops[..k]) + 1))
  }

  predicate Removes(op: Op, id: string) {
    op.UnsubAll? || (op.Unsub? && op.id == id)
  }

  /** Operation k subscribed id, and nothing since has subscribed it again or removed it. */
  predicate LastSubscribed(ops: seq<Op>, k: nat, id: string) {
    && k < |ops| && Names(ops, k) == Some(id)
    && forall j | k < j < |ops| :: Names(ops, j) != Some(id) && !Removes(ops[j], id)
  }

  lemma {:induction false} NextIDCounts(ops: seq<Op>)
    ensures After(NEW_REGISTRY, ops).nextID == Autos(ops) + 1
  {
    if ops != [] {
      NextIDCounts(ops[..|ops| - 1]);
    }
  }

  lemma {:induction false} LastSubscribedStep(ops: seq<Op>, op: Op, k: nat, id: string)
    ensures var longer := ops + [op];
            LastSubscribed(longer, k, id) <==>
            if Names(longer, |ops|) == Some(id) then k == |ops| else !Removes(op, id) && LastSubscribed(ops, k, id)
  {
    var longer := ops + [op];
    assert longer[..|ops|] == ops && longer[|ops|] == op;
    forall j | 0 <= j < |ops| ensures longer[j] == ops[j] && Names(longer, j) == Names(ops, j) {
      assert longer[..j] == ops[..j];
    }
  }

  lemma {:induction false} DoMeaning(r: Registry, op: Op, id: string)
    ensures var after := Do(r, op).listeners;
            if op.Sub? && id == IDFor(r, op.id) then id in after && after[id] == op.listener
            else if Removes(op, id) then id !in after
            else (id in after <==> id in r.listeners) && (id in after ==> after[id] == r.listeners[id])
  {
  }

  /** After every run an ID is live exactly if a subscription of it has been neither removed nor repeated since,
      and then it has that subscription's listener. */
  lemma {:induction false} LiveListeners(ops: seq<Op>, id: string)
    ensures var live := After(NEW_REGISTRY, ops).listeners;
            && (id in live <==> exists k: nat :: LastSubscribed(ops, k, id))
            && (forall k: nat | LastSubscribed(ops, k, id) :: live[id] == ops[k].listener)
  {
    if ops != [] {
      var init, op := ops[..|ops| - 1], ops[|ops| - 1];
      LiveListeners(init, id);
      NextIDCounts(init);
      DoMeaning(After(NEW_REGISTRY, init), op, id);
      assert ops == init + [op];
      forall k: nat
        ensures LastSubscribed(ops, k, id) <==>
                if Names(ops, |init|) == Some(id) then k == |init| else !Removes(op, id) && LastSubscribed(init, k, id)
      {
        LastSubscribedStep(init, op, k, id);
      }
      if k: nat :| LastSubscribed(init, k, id) {
        assert Names(ops, |init|) != Some(id) && !Removes(op, id) ==> LastSubscribed(ops, k, id);
      }
      assert Names(ops, |init|) == Some(id) ==> LastSubscribed(ops, |init|, id);
    }
  }

  // ---------------------------------------------------------------- generated IDs are fresh

  /** An ID that is still to be generated. */
  ghost predicate Clashes(id: string, nextID: nat) {
    exists k: nat :: k >= nextID && id == AutoID(k)
  }

  ghost predicate Clear(r: Registry) {
    forall id | id in r.listeners :: !Clashes(id, r.nextID)
  }

  /** No explicit ID subscribed is one that is still to be generated at that moment. */
  ghost predicate Careful(r: Registry, ops: seq<Op>) {
    ops != [] ==>
      var last := ops[|ops| - 1];
      && Careful(r, ops[..|ops| - 1])
      && (last.Sub? && last.id != "" ==> !Clashes(last.id, After(r, ops[..|ops| - 1]).nextID))
  }

  lemma {:induction false} GeneratedDoesNotClash(k: nat)
    ensures !Clashes(AutoID(k), k + 1)
  {
    if j: nat :| j >= k + 1 && AutoID(k) == AutoID(j) {
      AutoIDInjective(j, k);
      assert false;
    }
  }

  lemma {:induction false} DoKeepsClear(r: Registry, op: Op)
    requires Clear(r) && (op.Sub? && op.id != "" ==> !Clashes(op.id, r.nextID))
    ensures Clear(Do(r, op))
  {
    GeneratedDoesNotClash(r.nextID);
  }

  lemma {:induction false} RunKeepsClear(r: Registry, ops: seq<Op>)
    requires Clear(r) && Careful(r, ops)
    ensures Clear(After(r, ops))
  {
    if ops != [] {
      RunKeepsClear(r, ops[..|ops| - 1]);
      DoKeepsClear(After(r, ops[..|ops| - 1]), ops[|ops| - 1]);
    }
  }

  /** After any careful run a generated ID names no live subscription: subscribing with an empty ID
      replaces nobody. */
  lemma {:induction false} GeneratedIDsAreFresh(ops: seq<Op>, listener: Listener)
    requires Careful(NEW_REGISTRY, ops)
    ensures var r := After(NEW_REGISTRY, ops);
            && IDFor(r, "") !in r.listeners
            && |Subscribed(r, "", listener).listeners| == |r.listeners| + 1
            && forall id | id in r.listeners :: id in Subscribed(r, "", listener).listeners
                                                && Subscribed(r, "", listener).listeners[id] == r.listeners[id]
  {
    RunKeepsClear(NEW_REGISTRY, ops);
    ClearIsFresh(After(NEW_REGISTRY, ops));
  }

  /** The registry after n more subscriptions without an ID. */
  function AfterAutos(r: Registry, n: nat): Registry {
    if n == 0 then r else Subscribed(AfterAutos(r, n - 1), "", 0)
  }

  lemma {:induction false} AutosKeep(r: Registry, n: nat)
    ensures AfterAutos(r, n).nextID == r.nextID + n
    ensures forall id | id in r.listeners :: id in AfterAutos(r, n).listeners
    ensures Clear(r) ==> Clear(AfterAutos(r, n))
  {
    if n > 0 {
      AutosKeep(r, n - 1);
      if Clear(r) {
        DoKeepsClear(AfterAutos(r, n - 1), Sub("", 0));
      }
    }
  }

  predicate NextIsFresh(r: Registry) {
    AutoID(r.nextID) !in r.listeners
  }

  lemma {:induction false} ClearIsFresh(r: Registry)
    requires Clear(r)
    ensures NextIsFresh(r)
  {
    assert AutoID(r.nextID) in r.listeners ==> Clashes(AutoID(r.nextID), r.nextID);
  }

  lemma {:induction false} ClashIsMet(r: Registry) returns (n: nat)
    requires !Clear(r)
    ensures !NextIsFresh(AfterAutos(r, n))
  {
    var id :| id in r.listeners && Clashes(id, r.nextID);
    var k: nat :| k >= r.nextID && id == AutoID(k);
    n := k - r.nextID;
    AutosKeep(r, n);
  }

  /** One explicit subscription is enough for the next generated ID to replace a listener. */
  lemma {:induction false} GeneratedIDCanReplace(victim: Listener, listener: Listener)
    ensures var r := After(NEW_REGISTRY, [Sub("listener-1", victim)]);
            && r.listeners == map["listener-1" := victim] && !NextIsFresh(r)
            && Subscribed(r, "", listener).listeners == map["listener-1" := listener]
  {
    var op := Sub("listener-1", victim);
    assert [op][..0] == [];
    assert After(NEW_REGISTRY, [op]) == Subscribed(NEW_REGISTRY, "listener-1", victim);
    assert Decimal(1) == "1" && AutoID(1) == "listener-1";
  }

  /** From a given registry, generated IDs stay fresh for ever if and only if no live subscription has an
      ID that is still to be generated. */
  lemma {:induction false} FreshForeverIff(r: Registry)
    ensures (forall n: nat {:induction false} :: NextIsFresh(AfterAutos(r, n))) <==> Clear(r)
  {
    if Clear(r) {
      forall n: nat ensures NextIsFresh(AfterAutos(r, n)) {
        AutosKeep(r, n);
        ClearIsFresh(AfterAutos(r, n));
      }
    } else {
      var n := ClashIsMet(r);
    }
  }
}
