/**
 * Reducer definitions and their composition into one store (src/reducersBuilder.js).
 *
 * A definition is validated, turned into a transition function and a single-entry
 * `{state: {name: s}, dispatch: {name: f}}` record; a whole (possibly nested) list of
 * definitions is flattened, validated in order and folded left to right by shallow
 * map merge. The per-definition state cells are the class `Cells` below.
 */
module Reducers {
  import opened Wrappers
  import opened Values

  /** A handler takes the current state and the action's payload to the next state. */
  type Handler = (Value, Value) -> Value

  /**
   * A reducer definition as a caller writes it. `handlers` is None when the caller's
   * value for it is falsy; otherwise it maps action types to handlers.
   */
  datatype Definition = Definition(name: Value, initialState: Value, handlers: Option<map<string, Handler>>)

  /** The configuration errors `reducerBuilder` throws, one per missing attribute. */
  datatype ConfigError = MissingName | MissingInitialState | MissingHandlers

  /** A definition that passed validation; `key` is the property key its name becomes. */
  datatype Reducer = Reducer(key: string, initialState: Value, handlers: map<string, Handler>)

  /** The `{type, payload}` object a bound dispatcher passes to the reducer. */
  datatype Action = Action(kind: Value, payload: Value)

  /**
   * The checks at the head of `reducerBuilder`: name, then initialState, then handlers,
   * each rejected when falsy; the first failing check decides the error.
   */
  function Validate(d: Definition): (r: Result<Reducer, ConfigError>)
    ensures r == Err(MissingName) <==> !Truthy(d.name)
    ensures r == Err(MissingInitialState) <==> Truthy(d.name) && !Truthy(d.initialState)
    ensures r == Err(MissingHandlers) <==> Truthy(d.name) && Truthy(d.initialState) && d.handlers.None?
    ensures r.Ok? <==> Truthy(d.name) && Truthy(d.initialState) && d.handlers.Some?
    ensures r.Ok? ==> r.value.key == ToKey(d.name) && r.value.initialState == d.initialState
                      && r.value.handlers == d.handlers.value
  {
    if !Truthy(d.name) then Err(MissingName)
    else if !Truthy(d.initialState) then Err(MissingInitialState)
    else if d.handlers.None? then Err(MissingHandlers)
    else Ok(Reducer(ToKey(d.name), d.initialState, d.handlers.value))
  }

  /**
   * A falsy name fails whatever the other attributes are, and a falsy initial state
   * fails whatever the handlers are: the later attributes are never looked at.
   */
  lemma ValidateShortCircuits(d: Definition, init: Value, hs: Option<map<string, Handler>>)
    ensures !Truthy(d.name) ==> Validate(Definition(d.name, init, hs)) == Validate(d)
    ensures Truthy(d.name) && !Truthy(d.initialState) ==>
              Validate(Definition(d.name, d.initialState, hs)) == Err(MissingInitialState)
  {
  }

  /** `state = initialState`: an undefined incoming state is replaced by the initial state. */
  function Current(r: Reducer, state: Value): (c: Value)
    ensures state.Undefined? ==> c == r.initialState
    ensures !state.Undefined? ==> c == state
  {
    if state.Undefined? then r.initialState else state
  }

  /**
   * Whether the immutable-update library hands a handler a draft of `v`: only objects
   * and arrays. For any other base the handler's work is discarded and the base is kept.
   */
  predicate IsDraftable(v: Value) {
    v.Obj? || v.Arr?
  }

  /**
   * The transition `reducer(state, action)`: the handler registered under the action's
   * type is applied to a draft of the current state and the payload; with no such
   * handler, or when the current state is not draftable, the current state comes back
   * unchanged.
   */
  function Transition(r: Reducer, state: Value, action: Action): (next: Value)
    ensures ToKey(action.kind) !in r.handlers ==> next == Current(r, state)
    ensures !IsDraftable(Current(r, state)) ==> next == Current(r, state)
    ensures ToKey(action.kind) in r.handlers && IsDraftable(Current(r, state)) ==>
              next == r.handlers[ToKey(action.kind)](Current(r, state), action.payload)
  {
    var kind := ToKey(action.kind);
    var current := Current(r, state);
    if kind in r.handlers && IsDraftable(current) then r.handlers[kind](current, action.payload)
    else current
  }

  /** The (possibly nested) argument list of `reducersBuilder`. */
  datatype Nested = Leaf(def: Definition) | Group(items: seq<Nested>)

  /** `flattenDeep`: every definition, in the order a left-to-right reading meets it. */
  function Flatten(ns: seq<Nested>): seq<Definition>
    decreases ns
  {
    if ns == [] then []
    else
      (match ns[0]
       case Leaf(d) => [d]
       case Group(items) => Flatten(items)) + Flatten(ns[1..])
  }

  /** Flattening distributes over concatenation, so it keeps the order of its input. */
  lemma {:induction false} FlattenAppend(a: seq<Nested>, b: seq<Nested>)
    ensures Flatten(a + b) == Flatten(a) + Flatten(b)
    decreases a
  {
    if a == [] {
      assert a + b == b;
    } else {
      var head := match a[0] case Leaf(d) => [d] case Group(items) => Flatten(items);
      assert (a + b)[0] == a[0];
      assert (a + b)[1..] == a[1..] + b;
      FlattenAppend(a[1..], b);
      calc {
        Flatten(a + b);
        head + Flatten(a[1..] + b);
        head + (Flatten(a[1..]) + Flatten(b));
        (head + Flatten(a[1..])) + Flatten(b);
        Flatten(a) + Flatten(b);
      }
    }
  }

  /** A group contributes exactly its own flattening, at its position. */
  lemma {:induction false} FlattenGroup(before: seq<Nested>, items: seq<Nested>, after: seq<Nested>)
    ensures Flatten(before + [Group(items)] + after) == Flatten(before) + Flatten(items) + Flatten(after)
  {
    FlattenAppend(before + [Group(items)], after);
    FlattenAppend(before, [Group(items)]);
    assert Flatten([Group(items)]) == Flatten(items) + Flatten([]);
  }

  /** A list of plain definitions flattens to itself. */
  lemma {:induction false} FlattenLeaves(ds: seq<Definition>)
    ensures Flatten(seq(|ds|, i requires 0 <= i < |ds| => Leaf(ds[i]))) == ds
    decreases ds
  {
    var ns := seq(|ds|, i requires 0 <= i < |ds| => Leaf(ds[i]));
    if ds != [] {
      assert ns[1..] == seq(|ds[1..]|, i requires 0 <= i < |ds[1..]| => Leaf(ds[1..][i]));
      FlattenLeaves(ds[1..]);
      assert ds == [ds[0]] + ds[1..];
    }
  }

  /**
   * `.map(reducerBuilder)` on the flattened list: the definitions are validated in
   * order and the first invalid one aborts the whole composition with its error.
   */
  function ValidateAll(defs: seq<Definition>): (r: Result<seq<Reducer>, ConfigError>)
    ensures r.Ok? ==> |r.value| == |defs|
    ensures r.Ok? ==> forall i :: 0 <= i < |defs| ==> Validate(defs[i]) == Ok(r.value[i])
    ensures r.Err? ==> exists i :: 0 <= i < |defs| && Validate(defs[i]) == Err(r.error)
                                   && forall j :: 0 <= j < i ==> Validate(defs[j]).Ok?
    ensures r.Err? <==> exists i :: 0 <= i < |defs| && Validate(defs[i]).Err?
    decreases defs
  {
    if defs == [] then Ok([])
    else
      match Validate(defs[0])
      case Err(e) => Err(e)
      case Ok(head) =>
        match ValidateAll(defs[1..])
        case Err(e) =>
          assert forall i :: 1 <= i < |defs| ==> defs[i] == defs[1..][i - 1];
          Err(e)
        case Ok(rest) => Ok([head] + rest)
  }

  /** The combined `{state, dispatch}` record: name to slice, and name to bound dispatcher. */
  datatype Combined = Combined(state: map<string, Value>, dispatch: map<string, Reducer>)

  /**
   * What `reducerBuilder` returns for a reducer whose cell currently holds `slice`:
   * one entry under the reducer's name, the slice and the dispatcher bound to it.
   */
  function Entry(r: Reducer, slice: Value): (c: Combined)
    ensures c.state.Keys == c.dispatch.Keys == {r.key}
    ensures c.state[r.key] == slice && c.dispatch[r.key] == r
  {
    Combined(map[r.key := slice], map[r.key := r])
  }

  /** The `reduce` callback: a shallow merge where `part` wins on every shared name. */
  function Merge(acc: Combined, part: Combined): (c: Combined)
    ensures c.state.Keys == acc.state.Keys + part.state.Keys
    ensures c.dispatch.Keys == acc.dispatch.Keys + part.dispatch.Keys
    ensures forall k :: k in part.state ==> c.state[k] == part.state[k]
    ensures forall k :: k in part.dispatch ==> c.dispatch[k] == part.dispatch[k]
    ensures forall k :: k in acc.state && k !in part.state ==> c.state[k] == acc.state[k]
    ensures forall k :: k in acc.dispatch && k !in part.dispatch ==> c.dispatch[k] == acc.dispatch[k]
  {
    Combined(acc.state + part.state, acc.dispatch + part.dispatch)
  }

  /**
   * One render's `.map(reducerBuilder).reduce(Merge, acc)`: reducer `rs[i]` contributes
   * its cell's current value `slices[i]`, and the entries are merged left to right.
   */
  function Fold(acc: Combined, rs: seq<Reducer>, slices: seq<Value>): Combined
    requires |slices| == |rs|
    decreases rs
  {
    if rs == [] then acc else Fold(Merge(acc, Entry(rs[0], slices[0])), rs[1..], slices[1..])
  }

  /** The cells' values before any dispatch: every reducer's initial state. */
  function InitialStates(rs: seq<Reducer>): (s: seq<Value>)
    ensures |s| == |rs| && forall i :: 0 <= i < |rs| ==> s[i] == rs[i].initialState
  {
    seq(|rs|, i requires 0 <= i < |rs| => rs[i].initialState)
  }

  /** The names of a list of reducers. */
  function Names(rs: seq<Reducer>): set<string> {
    set i | 0 <= i < |rs| :: rs[i].key
  }

  /** `i` is the last position in `rs` that carries the name `k`. */
  ghost predicate IsLast(rs: seq<Reducer>, i: int, k: string) {
    0 <= i < |rs| && rs[i].key == k && forall j :: i < j < |rs| ==> rs[j].key != k
  }

  /** The fold's names are the starting names plus every reducer's name. */
  lemma {:induction false} FoldKeys(acc: Combined, rs: seq<Reducer>, slices: seq<Value>)
    requires |slices| == |rs|
    ensures Fold(acc, rs, slices).state.Keys == acc.state.Keys + Names(rs)
    ensures Fold(acc, rs, slices).dispatch.Keys == acc.dispatch.Keys + Names(rs)
    decreases rs
  {
    if rs != [] {
      FoldKeys(Merge(acc, Entry(rs[0], slices[0])), rs[1..], slices[1..]);
      NamesCons(rs);
    }
  }

  lemma NamesCons(rs: seq<Reducer>)
    requires rs != []
    ensures Names(rs) == {rs[0].key} + Names(rs[1..])
  {
    forall k | k in Names(rs) ensures k in {rs[0].key} + Names(rs[1..]) {
      var i :| 0 <= i < |rs| && rs[i].key == k;
      if i > 0 { assert rs[1..][i - 1] == rs[i]; }
    }
    forall k | k in Names(rs[1..]) ensures k in Names(rs) {
      var i :| 0 <= i < |rs[1..]| && rs[1..][i].key == k;
      assert rs[i + 1] == rs[1..][i];
    }
  }

  /** Every name that some reducer carries has a last position in the list. */
  lemma {:induction false} LastExists(rs: seq<Reducer>, k: string)
    requires k in Names(rs)
    ensures exists i :: IsLast(rs, i, k)
    decreases |rs|
  {
    var n := |rs| - 1;
    if rs[n].key == k {
      assert IsLast(rs, n, k);
    } else {
      var front := rs[..n];
      assert k in Names(front) by {
        var i :| 0 <= i < |rs| && rs[i].key == k;
        assert front[i] == rs[i];
      }
      LastExists(front, k);
      var i :| IsLast(front, i, k);
      assert IsLast(rs, i, k);
    }
  }

  /** The last reducer carrying a name supplies both its cell's slice and its dispatcher. */
  lemma {:induction false} FoldLastWins(acc: Combined, rs: seq<Reducer>, slices: seq<Value>, k: string, i: int)
    requires |slices| == |rs|
    requires IsLast(rs, i, k)
    ensures k in Fold(acc, rs, slices).state && Fold(acc, rs, slices).state[k] == slices[i]
    ensures k in Fold(acc, rs, slices).dispatch && Fold(acc, rs, slices).dispatch[k] == rs[i]
    decreases rs
  {
    var next := Merge(acc, Entry(rs[0], slices[0]));
    if i == 0 {
      FoldUntouched(next, rs[1..], slices[1..], k);
    } else {
      assert IsLast(rs[1..], i - 1, k);
      FoldLastWins(next, rs[1..], slices[1..], k, i - 1);
    }
  }

  /** A name no reducer carries keeps whatever the starting record holds for it. */
  lemma {:induction false} FoldUntouched(acc: Combined, rs: seq<Reducer>, slices: seq<Value>, k: string)
    requires |slices| == |rs|
    requires forall j :: 0 <= j < |rs| ==> rs[j].key != k
    ensures k in Fold(acc, rs, slices).state <==> k in acc.state
    ensures k in acc.state ==> Fold(acc, rs, slices).state[k] == acc.state[k]
    ensures k in Fold(acc, rs, slices).dispatch <==> k in acc.dispatch
    ensures k in acc.dispatch ==> Fold(acc, rs, slices).dispatch[k] == acc.dispatch[k]
    decreases rs
  {
    if rs != [] {
      FoldUntouched(Merge(acc, Entry(rs[0], slices[0])), rs[1..], slices[1..], k);
    }
  }

  /** Every name present in the fold's dispatch table is bound to the reducer of that name. */
  lemma {:induction false} FoldBindsOwnNames(acc: Combined, rs: seq<Reducer>, slices: seq<Value>)
    requires |slices| == |rs|
    requires forall k :: k in acc.dispatch ==> acc.dispatch[k].key == k
    ensures forall k :: k in Fold(acc, rs, slices).dispatch ==> Fold(acc, rs, slices).dispatch[k].key == k
    decreases rs
  {
    if rs != [] {
      FoldBindsOwnNames(Merge(acc, Entry(rs[0], slices[0])), rs[1..], slices[1..]);
    }
  }

  /**
   * Changing the starting slice of a name that no reducer carries changes that slice
   * of the result and nothing else.
   */
  lemma {:induction false} FoldAccUpdate(acc: Combined, rs: seq<Reducer>, slices: seq<Value>, k: string, v: Value)
    requires |slices| == |rs|
    requires forall j :: 0 <= j < |rs| ==> rs[j].key != k
    ensures Fold(Combined(acc.state[k := v], acc.dispatch), rs, slices)
         == Combined(Fold(acc, rs, slices).state[k := v], Fold(acc, rs, slices).dispatch)
    decreases rs
  {
    if rs != [] {
      var part := Entry(rs[0], slices[0]);
      assert Merge(Combined(acc.state[k := v], acc.dispatch), part)
          == Combined(Merge(acc, part).state[k := v], Merge(acc, part).dispatch);
      FoldAccUpdate(Merge(acc, part), rs[1..], slices[1..], k, v);
    }
  }

  /**
   * A new value in the cell of the last reducer carrying `k` changes exactly slice `k`
   * of the rebuilt record: every other slice and the dispatch table stay as they were.
   */
  lemma {:induction false} FoldReplaceLast(acc: Combined, rs: seq<Reducer>, slices: seq<Value>, k: string, i: int, v: Value)
    requires |slices| == |rs|
    requires IsLast(rs, i, k)
    ensures Fold(acc, rs, slices[i := v])
         == Combined(Fold(acc, rs, slices).state[k := v], Fold(acc, rs, slices).dispatch)
    decreases rs
  {
    var updated := slices[i := v];
    assert updated[1..] == if i == 0 then slices[1..] else slices[1..][i - 1 := v];
    if i == 0 {
      var part := Entry(rs[0], slices[0]);
      assert Merge(acc, Entry(rs[0], v)) == Combined(Merge(acc, part).state[k := v], Merge(acc, part).dispatch);
      FoldAccUpdate(Merge(acc, part), rs[1..], slices[1..], k, v);
    } else {
      assert IsLast(rs[1..], i - 1, k);
      FoldReplaceLast(Merge(acc, Entry(rs[0], slices[0])), rs[1..], slices[1..], k, i - 1, v);
    }
  }

  /** The record the fold starts from (`{}` in the source). */
  function Empty(): Combined {
    Combined(map[], map[])
  }

  /** `reducersBuilder(...input)`: flatten, validate each definition in order, then fold. */
  function Compose(input: seq<Nested>): Result<Combined, ConfigError> {
    match ValidateAll(Flatten(input))
    case Err(e) => Err(e)
    case Ok(rs) => Ok(Fold(Empty(), rs, InitialStates(rs)))
  }

  /** A store is well formed when both tables share their names and every dispatcher is bound to its own name. */
  ghost predicate WellFormed(c: Combined) {
    c.state.Keys == c.dispatch.Keys && forall k :: k in c.dispatch ==> c.dispatch[k].key == k
  }

  /**
   * The composition fails exactly when some flattened definition is invalid, and then
   * with the error of the first invalid one.
   */
  lemma ComposeFails(input: seq<Nested>)
    ensures Compose(input).Err? <==> exists i :: 0 <= i < |Flatten(input)| && Validate(Flatten(input)[i]).Err?
    ensures Compose(input).Err? ==>
              exists i :: 0 <= i < |Flatten(input)| && Validate(Flatten(input)[i]) == Err(Compose(input).error)
                          && forall j :: 0 <= j < i ==> Validate(Flatten(input)[j]).Ok?
  {
  }

  /**
   * A successful composition has one state entry and one dispatcher per distinct
   * name among the flattened definitions, and nothing else.
   */
  lemma ComposeNames(input: seq<Nested>)
    requires Compose(input).Ok?
    ensures var defs := Flatten(input);
            && Compose(input).value.state.Keys == DefinitionNames(defs)
            && Compose(input).value.dispatch.Keys == Compose(input).value.state.Keys
    ensures WellFormed(Compose(input).value)
  {
    var defs := Flatten(input);
    var rs := ValidateAll(defs).value;
    FoldKeys(Empty(), rs, InitialStates(rs));
    FoldBindsOwnNames(Empty(), rs, InitialStates(rs));
    assert Names(rs) == DefinitionNames(defs) by {
      forall i | 0 <= i < |defs| ensures rs[i].key == ToKey(defs[i].name) {
        assert Validate(defs[i]) == Ok(rs[i]);
      }
    }
  }

  /**
   * With duplicate names, both the slice and the dispatcher of a name come from the
   * last definition carrying it, in flattened order.
   */
  lemma ComposeLastWins(input: seq<Nested>, i: int)
    requires Compose(input).Ok?
    requires 0 <= i < |Flatten(input)|
    requires forall j :: i < j < |Flatten(input)| ==> ToKey(Flatten(input)[j].name) != ToKey(Flatten(input)[i].name)
    ensures var d := Flatten(input)[i];
            var c := Compose(input).value;
            && ToKey(d.name) in c.state && c.state[ToKey(d.name)] == d.initialState
            && ToKey(d.name) in c.dispatch && Validate(d) == Ok(c.dispatch[ToKey(d.name)])
  {
    var defs := Flatten(input);
    var rs := ValidateAll(defs).value;
    assert forall j :: 0 <= j < |defs| ==> Validate(defs[j]) == Ok(rs[j]);
    FoldLastWins(Empty(), rs, InitialStates(rs), rs[i].key, i);
  }

  /**
   * Before any dispatch, for distinct names, the combined state maps each name to its
   * own definition's initial state and has exactly as many entries as definitions.
   */
  lemma ComposeDistinct(input: seq<Nested>)
    requires Compose(input).Ok?
    requires forall i, j :: 0 <= i < j < |Flatten(input)| ==> ToKey(Flatten(input)[i].name) != ToKey(Flatten(input)[j].name)
    ensures |Compose(input).value.state| == |Flatten(input)|
    ensures forall i :: 0 <= i < |Flatten(input)| ==>
              && ToKey(Flatten(input)[i].name) in Compose(input).value.state
              && Compose(input).value.state[ToKey(Flatten(input)[i].name)] == Flatten(input)[i].initialState
  {
    var defs := Flatten(input);
    var c := Compose(input).value;
    ComposeNames(input);
    forall i | 0 <= i < |defs|
      ensures ToKey(defs[i].name) in c.state && c.state[ToKey(defs[i].name)] == defs[i].initialState
    {
      ComposeLastWins(input, i);
    }
    DistinctImageSize(defs);
  }

  /** The property keys the names of a list of definitions become. */
  function DefinitionNames(defs: seq<Definition>): set<string> {
    set i | 0 <= i < |defs| :: ToKey(defs[i].name)
  }

  /** Distinct names over a list of definitions give a name set as large as the list. */
  lemma {:induction false} DistinctImageSize(defs: seq<Definition>)
    requires forall i, j :: 0 <= i < j < |defs| ==> ToKey(defs[i].name) != ToKey(defs[j].name)
    ensures |DefinitionNames(defs)| == |defs|
    decreases defs
  {
    if defs != [] {
      var tail := defs[1..];
      var first := ToKey(defs[0].name);
      DistinctImageSize(tail);
      assert DefinitionNames(defs) == {first} + DefinitionNames(tail) by {
        forall k | k in DefinitionNames(defs) ensures k in {first} + DefinitionNames(tail) {
          var i :| 0 <= i < |defs| && ToKey(defs[i].name) == k;
          if i > 0 { assert tail[i - 1] == defs[i]; }
        }
        forall k | k in DefinitionNames(tail) ensures k in DefinitionNames(defs) {
          var i :| 0 <= i < |tail| && ToKey(tail[i].name) == k;
          assert defs[i + 1] == tail[i];
        }
      }
      forall i | 0 <= i < |tail| ensures ToKey(tail[i].name) != first {
        assert tail[i] == defs[i + 1];
      }
    }
  }

  /**
   * The `useReducer` cells behind a composed store. Each reducer of the flattened,
   * validated list owns one cell (`slices`, ghost); a render rebuilds the combined
   * record from them, and `state`/`dispatch` hold that record.
   */
  class Cells {
    var state: map<string, Value>
    var dispatch: map<string, Reducer>
    ghost var reducers: seq<Reducer>
    ghost var slices: seq<Value>

    ghost predicate Valid()
      reads this
    {
      && |slices| == |reducers|
      && Combined(state, dispatch) == Fold(Empty(), reducers, slices)
      && state.Keys == dispatch.Keys
    }

    /** The `{state, dispatch}` record a render builds from the current cells. */
    function Snapshot(): (c: Combined)
      requires Valid()
      reads this
      ensures c == Fold(Empty(), reducers, slices)
    {
      Combined(state, dispatch)
    }

    /** Mounting: one cell per reducer, each holding that reducer's initial state. */
    constructor (rs: seq<Reducer>)
      ensures Valid() && reducers == rs && slices == InitialStates(rs)
      ensures Snapshot() == Fold(Empty(), rs, InitialStates(rs))
    {
      var c := Fold(Empty(), rs, InitialStates(rs));
      FoldKeys(Empty(), rs, InitialStates(rs));
      state := c.state;
      dispatch := c.dispatch;
      reducers := rs;
      slices := InitialStates(rs);
    }

    /**
     * `dispatch[name](type, payload)`: the cell of the reducer bound to `name` (the last
     * one carrying it) takes the transition's result; every other cell, shadowed
     * duplicates included, every other slice and the dispatch table stay as they were.
     */
    method Dispatch(name: string, kind: Value, payload: Value)
      requires Valid() && name in dispatch
      modifies this
      ensures Valid() && dispatch == old(dispatch) && reducers == old(reducers)
      ensures state == old(state)[name := Transition(dispatch[name], old(state)[name], Action(kind, payload))]
      ensures forall n :: n in old(state) && n != name ==> n in state && state[n] == old(state)[n]
      ensures ToKey(kind) !in dispatch[name].handlers && !old(state)[name].Undefined? ==> state == old(state)
      ensures exists i :: IsLast(reducers, i, name) && slices == old(slices)[i := state[name]]
    {
      FoldKeys(Empty(), reducers, slices);
      LastExists(reducers, name);
      ghost var i :| IsLast(reducers, i, name);
      FoldLastWins(Empty(), reducers, slices, name, i);
      var r := dispatch[name];
      var next := Transition(r, state[name], Action(kind, payload));
      FoldReplaceLast(Empty(), reducers, slices, name, i, next);
      state := state[name := next];
      slices := slices[i := next];
    }
  }
}
