/**
 The middleware chain of a worker: middleware.go.

 What running a handler does, beyond its result, is a sequence of effects.
 */
module Middleware {

  datatype Outcome<E, R> = Outcome(effects: seq<E>, result: R)

  /** HandlerFunc. */
  type Handler<!C, E, R> = C -> Outcome<E, R>

  /** MiddlewareFunc. */
  type Wrapper<!C, !E, !R> = (C, Handler<C, E, R>) -> Outcome<E, R>

  datatype Named<!C, !E, !R> = Named(name: string, fn: Wrapper<C, E, R>)

  // --- The list and its edits ---

  /** The index of the first middleware of the name, or the length. */
  function IndexOf<C, E, R>(list: seq<Named<C, E, R>>, name: string): (k: nat)
    ensures k <= |list| && (k < |list| ==> list[k].name == name)
    ensures forall i :: 0 <= i < k ==> list[i].name != name
  {
    if list == [] || list[0].name == name then 0 else 1 + IndexOf(list[1..], name)
  }

  function InsertedAt<C, E, R>(list: seq<Named<C, E, R>>, k: nat, m: Named<C, E, R>): seq<Named<C, E, R>>
    requires k <= |list|
  {
    list[..k] + [m] + list[k..]
  }

  /** Where InsertAfter puts the new middleware. */
  function After<C, E, R>(list: seq<Named<C, E, R>>, existing: string): (k: nat)
    ensures k <= |list|
  {
    if IndexOf(list, existing) < |list| then IndexOf(list, existing) + 1 else |list|
  }

  function RemovedAt<C, E, R>(list: seq<Named<C, E, R>>, k: nat): seq<Named<C, E, R>>
    requires k < |list|
  {
    list[..k] + list[k + 1..]
  }

  function Removed<C, E, R>(list: seq<Named<C, E, R>>, name: string): seq<Named<C, E, R>> {
    if IndexOf(list, name) < |list| then RemovedAt(list, IndexOf(list, name)) else list
  }

  class MiddlewareChain<C, E, R> {
    var middleware: seq<Named<C, E, R>>

    constructor ()
      ensures middleware == []
    {
      middleware := [];
    }

    method Add(name: string, fn: Wrapper<C, E, R>)
      modifies this
      ensures middleware == InsertedAt(old(middleware), |old(middleware)|, Named(name, fn))
    {
      middleware := middleware + [Named(name, fn)];
    }

    method Prepend(name: string, fn: Wrapper<C, E, R>)
      modifies this
      ensures middleware == InsertedAt(old(middleware), 0, Named(name, fn))
    {
      middleware := [Named(name, fn)] + middleware;
    }

    method InsertBefore(existing: string, name: string, fn: Wrapper<C, E, R>)
      modifies this
      ensures middleware == InsertedAt(old(middleware), IndexOf(old(middleware), existing), Named(name, fn))
    {
      for i := 0 to |middleware|
        invariant middleware == old(middleware)
        invariant forall j :: 0 <= j < i ==> middleware[j].name != existing
      {
        if middleware[i].name == existing {
          middleware := middleware[..i] + [Named(name, fn)] + middleware[i..];
          return;
        }
      }
      Add(name, fn);
    }

    method InsertAfter(existing: string, name: string, fn: Wrapper<C, E, R>)
      modifies this
      ensures middleware == InsertedAt(old(middleware), After(old(middleware), existing), Named(name, fn))
    {
      for i := 0 to |middleware|
        invariant middleware == old(middleware)
        invariant forall j :: 0 <= j < i ==> middleware[j].name != existing
      {
        if middleware[i].name == existing {
          middleware := middleware[..i + 1] + [Named(name, fn)] + middleware[i + 1..];
          return;
        }
      }
      Add(name, fn);
    }

    method Remove(name: string)
      modifies this
      ensures middleware == Removed(old(middleware), name)
    {
      for i := 0 to |middleware|
        invariant middleware == old(middleware)
        invariant forall j :: 0 <= j < i ==> middleware[j].name != name
      {
        if middleware[i].name == name {
          middleware := middleware[..i] + middleware[i + 1..];
          return;
        }
      }
    }

    /** The handler built reads nothing of the chain, so later edits do not affect it. */
    method Then(handler: Handler<C, E, R>) returns (h: Handler<C, E, R>)
      ensures h == Nest(middleware, handler)
    {
      h := handler;
      var i := |middleware| - 1;
      while i >= 0
        invariant -1 <= i < |middleware|
        invariant h == Nest(middleware[i + 1..], handler)
      {
        var mw := middleware[i].fn;
        var next := h;
        h := Around(mw, next);
        assert middleware[i..][1..] == middleware[i + 1..];
        i := i - 1;
      }
      assert middleware[0..] == middleware;
    }
  }

  /** The list is as it was, but for one new element at index k. */
  ghost predicate OneMore<C, E, R>(list: seq<Named<C, E, R>>, list': seq<Named<C, E, R>>, k: nat, m: Named<C, E, R>) {
    && |list'| == |list| + 1 && k <= |list| && list'[k] == m
    && (forall i :: 0 <= i < k ==> list'[i] == list[i])
    && (forall i :: k <= i < |list| ==> list'[i + 1] == list[i])
  }

  /**
   The edits put the new middleware next to the first one of the name: InsertBefore in front of it, so that
   it comes directly after, InsertAfter behind it; and at the end if there is none.
   */
  lemma InsertedNextTo<C, E, R>(list: seq<Named<C, E, R>>, existing: string, m: Named<C, E, R>, first: nat)
    requires first <= |list| && forall i :: 0 <= i < first ==> list[i].name != existing
    requires first < |list| ==> list[first].name == existing
    ensures var before := InsertedAt(list, IndexOf(list, existing), m);
            OneMore(list, before, first, m) && (first < |list| ==> before[first + 1].name == existing)
    ensures var after := InsertedAt(list, After(list, existing), m);
            OneMore(list, after, if first < |list| then first + 1 else first, m)
  {
    assert IndexOf(list, existing) == first;
    InsertedIsOneMore(list, first, m);
    InsertedIsOneMore(list, After(list, existing), m);
  }

  lemma InsertedIsOneMore<C, E, R>(list: seq<Named<C, E, R>>, k: nat, m: Named<C, E, R>)
    requires k <= |list|
    ensures OneMore(list, InsertedAt(list, k, m), k, m)
  {
  }

  // --- Nesting ---

  function Around<C, E, R>(mw: Wrapper<C, E, R>, next: Handler<C, E, R>): Handler<C, E, R> {
    ctx => mw(ctx, next)
  }

  /** The right fold of the list. */
  function Nest<C, E, R>(list: seq<Named<C, E, R>>, handler: Handler<C, E, R>): Handler<C, E, R> {
    if list == [] then handler else Around(list[0].fn, Nest(list[1..], handler))
  }

  lemma {:induction false} NestJoin<C, E, R>(a: seq<Named<C, E, R>>, b: seq<Named<C, E, R>>, handler: Handler<C, E, R>)
    ensures Nest(a + b, handler) == Nest(a, Nest(b, handler))
  {
    if a == [] {
      assert a + b == b;
    } else {
      assert (a + b)[1..] == a[1..] + b;
      NestJoin(a[1..], b, handler);
    }
  }

  /** An inserted middleware wraps what is built from the ones after it, and those before wrap it. */
  lemma InsertionNests<C, E, R>(list: seq<Named<C, E, R>>, k: nat, m: Named<C, E, R>, handler: Handler<C, E, R>)
    requires k <= |list|
    ensures Nest(InsertedAt(list, k, m), handler) == Nest(list[..k], Around(m.fn, Nest(list[k..], handler)))
  {
    assert InsertedAt(list, k, m) == list[..k] + ([m] + list[k..]);
    NestJoin(list[..k], [m] + list[k..], handler);
    assert ([m] + list[k..])[1..] == list[k..];
  }

  /** Without the removed middleware, those before it wrap what is built from the ones after it. */
  lemma RemovalUnwraps<C, E, R>(list: seq<Named<C, E, R>>, name: string, handler: Handler<C, E, R>)
    requires IndexOf(list, name) < |list|
    ensures Nest(Removed(list, name), handler)
         == Nest(list[..IndexOf(list, name)], Nest(list[IndexOf(list, name) + 1..], handler))
  {
    NestJoin(list[..IndexOf(list, name)], list[IndexOf(list, name) + 1..], handler);
  }

  lemma RemoveInserted<C, E, R>(list: seq<Named<C, E, R>>, k: nat, m: Named<C, E, R>)
    requires k <= |list|
    ensures RemovedAt(InsertedAt(list, k, m), k) == list
  {
  }

  lemma RemoveEarlier<C, E, R>(list: seq<Named<C, E, R>>, j: nat, k: nat, m: Named<C, E, R>)
    requires j < k <= |list|
    ensures RemovedAt(InsertedAt(list, k, m), j) == InsertedAt(RemovedAt(list, j), k - 1, m)
  {
  }

  /**
   Removing a name undoes any insertion of it, if no middleware before the insertion has the name; if one
   has, that one goes instead and the inserted one stays.
   */
  lemma RemoveUndoesInsert<C, E, R>(list: seq<Named<C, E, R>>, k: nat, m: Named<C, E, R>)
    requires k <= |list|
    ensures IndexOf(list, m.name) >= k ==> Removed(InsertedAt(list, k, m), m.name) == list
    ensures IndexOf(list, m.name) < k ==>
              Removed(InsertedAt(list, k, m), m.name) == InsertedAt(Removed(list, m.name), k - 1, m)
  {
    var j := IndexOf(list, m.name);
    IndexAfterInsert(list, k, m);
    if j >= k {
      RemoveInserted(list, k, m);
    } else {
      RemoveEarlier(list, j, k, m);
    }
  }

  lemma {:induction false} IndexAfterInsert<C, E, R>(list: seq<Named<C, E, R>>, k: nat, m: Named<C, E, R>)
    requires k <= |list|
    ensures IndexOf(InsertedAt(list, k, m), m.name) == if IndexOf(list, m.name) < k then IndexOf(list, m.name) else k
    decreases |list|
  {
    if k == 0 {
      assert InsertedAt(list, k, m)[0] == m;
    } else {
      assert InsertedAt(list, k, m)[1..] == InsertedAt(list[1..], k - 1, m);
      IndexAfterInsert(list[1..], k - 1, m);
    }
  }

  // --- The onion ---

  /** A middleware that calls next once, with effects of its own before and after. */
  datatype Layer<!C, E, !R> = Layer(enter: C -> seq<E>, pass: C -> C, leave: (C, R) -> seq<E>, back: (C, R) -> R)

  function Wrap<C, E, R>(l: Layer<C, E, R>): Wrapper<C, E, R> {
    (ctx: C, next: Handler<C, E, R>) =>
      var out := next(l.pass(ctx));
      Outcome(l.enter(ctx) + out.effects + l.leave(ctx, out.result), l.back(ctx, out.result))
  }

  function Concat<E>(parts: seq<seq<E>>): seq<E> {
    if parts == [] then [] else parts[0] + Concat(parts[1..])
  }

  lemma {:induction false} ConcatLast<E>(parts: seq<seq<E>>, last: seq<E>)
    ensures Concat(parts + [last]) == Concat(parts) + last
  {
    if parts == [] {
      assert parts + [last] == [last];
      assert [last][1..] == [];
    } else {
      assert (parts + [last])[1..] == parts[1..] + [last];
      ConcatLast(parts[1..], last);
    }
  }

  /** `contexts` is what each layer, and last the handler, is called with. */
  ghost predicate Descends<C, E, R>(layers: seq<Layer<C, E, R>>, contexts: seq<C>) {
    |contexts| == |layers| + 1 && forall i :: 0 <= i < |layers| ==> contexts[i + 1] == layers[i].pass(contexts[i])
  }

  /** `results` is what each layer, and last the handler, returns. */
  ghost predicate Ascends<C, E, R>(layers: seq<Layer<C, E, R>>, contexts: seq<C>, results: seq<R>) {
    |results| == |contexts| == |layers| + 1
    && forall i :: 0 <= i < |layers| ==> results[i] == layers[i].back(contexts[i], results[i + 1])
  }

  function Chain<C, E, R>(names: seq<string>, layers: seq<Layer<C, E, R>>): seq<Named<C, E, R>>
    requires |names| == |layers|
  {
    seq(|layers|, i requires 0 <= i < |layers| => Named(names[i], Wrap(layers[i])))
  }

  ghost function Entering<C, E, R>(layers: seq<Layer<C, E, R>>, contexts: seq<C>): seq<seq<E>>
    requires |contexts| == |layers| + 1
  {
    seq(|layers|, i requires 0 <= i < |layers| => layers[i].enter(contexts[i]))
  }

  /** From the innermost layer to the outermost. */
  ghost function Leaving<C, E, R>(layers: seq<Layer<C, E, R>>, contexts: seq<C>, results: seq<R>): seq<seq<E>>
    requires |contexts| == |results| == |layers| + 1
  {
    var n := |layers|;
    seq(n, i requires 0 <= i < n => layers[n - 1 - i].leave(contexts[n - 1 - i], results[n - i]))
  }

  lemma ChainTail<C, E, R>(names: seq<string>, layers: seq<Layer<C, E, R>>)
    requires |names| == |layers| > 0
    ensures Chain(names, layers)[0].fn == Wrap(layers[0])
    ensures Chain(names, layers)[1..] == Chain(names[1..], layers[1..])
  {
  }

  lemma EnteringFirst<C, E, R>(layers: seq<Layer<C, E, R>>, contexts: seq<C>)
    requires |contexts| == |layers| + 1 && layers != []
    ensures Entering(layers, contexts)[0] == layers[0].enter(contexts[0])
    ensures Entering(layers, contexts)[1..] == Entering(layers[1..], contexts[1..])
  {
  }

  lemma LeavingLast<C, E, R>(layers: seq<Layer<C, E, R>>, contexts: seq<C>, results: seq<R>)
    requires |contexts| == |results| == |layers| + 1 && layers != []
    ensures Leaving(layers, contexts, results)
         == Leaving(layers[1..], contexts[1..], results[1..]) + [layers[0].leave(contexts[0], results[1])]
  {
  }

  /** One layer around a handler whose outcome is known. */
  lemma OneLayer<C, E, R>(l: Layer<C, E, R>, next: Handler<C, E, R>, ctx: C, a: seq<E>, b: seq<E>, c: seq<E>, r: R)
    requires next(l.pass(ctx)) == Outcome(a + b + c, r)
    ensures Around(Wrap(l), next)(ctx) == Outcome((l.enter(ctx) + a) + b + (c + l.leave(ctx, r)), l.back(ctx, r))
  {
    assert l.enter(ctx) + (a + b + c) + l.leave(ctx, r) == (l.enter(ctx) + a) + b + (c + l.leave(ctx, r));
  }

  /**
   The effects of the built handler are those of entering the layers in order, of the handler, and of
   leaving the layers in reverse order.
   */
  lemma {:induction false} Onion<C, E, R>(names: seq<string>, layers: seq<Layer<C, E, R>>, handler: Handler<C, E, R>,
                                          contexts: seq<C>, results: seq<R>)
    requires |names| == |layers| && Descends(layers, contexts) && Ascends(layers, contexts, results)
    requires results[|layers|] == handler(contexts[|layers|]).result
    ensures Nest(Chain(names, layers), handler)(contexts[0])
         == Outcome(Concat(Entering(layers, contexts)) + handler(contexts[|layers|]).effects
                    + Concat(Leaving(layers, contexts, results)), results[0])
  {
    if layers == [] {
      assert handler(contexts[0]).effects == [] + handler(contexts[0]).effects + [];
    } else {
      var inner, cs, rs := layers[1..], contexts[1..], results[1..];
      Onion(names[1..], inner, handler, cs, rs);
      ChainTail(names, layers);
      EnteringFirst(layers, contexts);
      LeavingLast(layers, contexts, results);
      ConcatLast(Leaving(inner, cs, rs), layers[0].leave(contexts[0], results[1]));
      OneLayer(layers[0], Nest(Chain(names[1..], inner), handler), contexts[0], Concat(Entering(inner, cs)),
               handler(contexts[|layers|]).effects, Concat(Leaving(inner, cs, rs)), results[1]);
    }
  }
}
