/**
 * The store accessors (src/Store.js). The store a provider publishes is passed
 * explicitly: `getState` reads a dot-separated path out of its state, and
 * `getDispatch` hands out its dispatch table or one bound dispatcher.
 */
module Store {
  import opened Wrappers
  import opened Values
  import opened Reducers

  /**
   * The `{state, dispatch}` value a store factory returns. Any state value is
   * possible here; a composed store always has a plain-object state.
   */
  datatype StoreValue = StoreValue(state: Value, dispatch: map<string, Reducer>)

  /** The store value a composed record publishes: its slices as a plain object. */
  function Published(c: Combined): (s: StoreValue)
    ensures IsPlainObject(s.state) && s.state.fields == c.state && s.dispatch == c.dispatch
  {
    StoreValue(Obj(c.state), c.dispatch)
  }

  /** The runtime errors `getState` can raise. */
  datatype Fault =
    | SplitNotAFunction              // the key is truthy but not a string
    | CannotRead(property: string)   // a path segment read a property of undefined or null

  /** `s.split('.')`: the pieces between dots, empty pieces included. */
  function Split(s: string): (r: seq<string>)
    ensures |r| >= 1
    ensures forall i :: 0 <= i < |r| ==> '.' !in r[i]
    decreases |s|
  {
    if s == [] then [""]
    else
      var rest := Split(s[1..]);
      if s[0] == '.' then [""] + rest
      else [[s[0]] + rest[0]] + rest[1..]
  }

  /** `segs.join('.')`. */
  function Join(segs: seq<string>): string
    requires |segs| >= 1
    decreases |segs|
  {
    if |segs| == 1 then segs[0] else segs[0] + "." + Join(segs[1..])
  }

  /** Joining the pieces of a split gives back the original key. */
  lemma {:induction false} JoinSplit(s: string)
    ensures Join(Split(s)) == s
    decreases |s|
  {
    if s != [] {
      var rest := Split(s[1..]);
      JoinSplit(s[1..]);
      if s[0] == '.' {
        assert ([""] + rest)[1..] == rest;
        assert s == "." + s[1..];
      } else {
        var r := [[s[0]] + rest[0]] + rest[1..];
        if |rest| == 1 {
          assert s == [s[0]] + s[1..];
        } else {
          assert r[1..] == rest[1..];
          assert Join(rest) == rest[0] + "." + Join(rest[1..]);
          assert s == [s[0]] + s[1..];
        }
      }
    }
  }

  /** A dot-free prefix is glued onto the first piece of what follows it. */
  lemma {:induction false} SplitPrefix(a: string, t: string)
    requires '.' !in a
    ensures Split(a + t) == [a + Split(t)[0]] + Split(t)[1..]
    decreases |a|
  {
    if a != [] {
      assert (a + t)[0] == a[0];
      assert (a + t)[1..] == a[1..] + t;
      SplitPrefix(a[1..], t);
      assert [a[0]] + (a[1..] + Split(t)[0]) == a + Split(t)[0];
    } else {
      assert a + t == t;
      assert Split(t) == [Split(t)[0]] + Split(t)[1..];
      assert a + Split(t)[0] == Split(t)[0];
    }
  }

  /** Splitting a join of dot-free pieces gives back the pieces. */
  lemma {:induction false} SplitJoin(segs: seq<string>)
    requires |segs| >= 1
    requires forall i :: 0 <= i < |segs| ==> '.' !in segs[i]
    ensures Split(Join(segs)) == segs
    decreases |segs|
  {
    if |segs| == 1 {
      SplitPrefix(segs[0], "");
      assert segs[0] + "" == segs[0];
    } else {
      var t := Join(segs[1..]);
      SplitJoin(segs[1..]);
      SplitPrefix(segs[0], "." + t);
      assert ("." + t)[1..] == t;
      assert segs[0] + "." + t == segs[0] + ("." + t);
      assert segs[0] + "" == segs[0];
      assert segs == [segs[0]] + segs[1..];
    }
  }

  /** Following `segs` from `v`, one property read per segment, left to right. */
  function Walk(v: Value, segs: seq<string>): (r: Result<Value, Fault>)
    ensures r.Err? ==> exists j :: 0 <= j < |segs| && r.error == CannotRead(segs[j])
    decreases segs
  {
    if segs == [] then Ok(v)
    else
      match GetProperty(v, segs[0])
      case None => Err(CannotRead(segs[0]))
      case Some(w) => Walk(w, segs[1..])
  }

  /** Walking a concatenated path walks the first part, then the second from where it ended. */
  lemma {:induction false} WalkAppend(v: Value, a: seq<string>, b: seq<string>)
    ensures Walk(v, a + b) == match Walk(v, a) case Err(e) => Err(e) case Ok(w) => Walk(w, b)
    decreases a
  {
    if a == [] {
      assert a + b == b;
    } else {
      assert (a + b)[0] == a[0];
      assert (a + b)[1..] == a[1..] + b;
      match GetProperty(v, a[0]) {
        case None =>
        case Some(w) => WalkAppend(w, a[1..], b);
      }
    }
  }

  /**
   * When a segment other than the last lands on a missing value, the next read
   * raises: the whole walk fails on the segment that follows.
   */
  lemma WalkFailsAfterMissing(v: Value, segs: seq<string>, j: int)
    requires 0 <= j < |segs|
    requires Walk(v, segs[..j]) == Ok(Undefined)
    ensures Walk(v, segs) == Err(CannotRead(segs[j]))
  {
    WalkAppend(v, segs[..j], segs[j..]);
    assert segs[..j] + segs[j..] == segs;
  }

  /** When only the last segment is missing from an object, the walk yields undefined. */
  lemma WalkLastMissing(v: Value, segs: seq<string>, k: string)
    requires Walk(v, segs).Ok? && Walk(v, segs).value.Obj?
    requires k !in Walk(v, segs).value.fields
    ensures Walk(v, segs + [k]) == Ok(Undefined)
  {
    WalkAppend(v, segs, [k]);
  }

  /** Walking a shallow copy of a plain object is the same as walking the object. */
  lemma WalkShallowCopy(v: Value, segs: seq<string>)
    requires IsPlainObject(v)
    ensures Walk(ShallowCopy(v), segs) == Walk(v, segs)
  {
  }

  /** What `getState(key)` returns for a given store: the specification of `GetState`. */
  function StateAt(store: StoreValue, key: Value): (r: Result<Value, Fault>)
    ensures r.Err? ==> Truthy(key) && IsPlainObject(store.state)
  {
    if !Truthy(key) then Ok(store.state)
    else if !IsPlainObject(store.state) then Ok(store.state)
    else if !key.Str? then Err(SplitNotAFunction)
    else Walk(ShallowCopy(store.state), Split(key.s))
  }

  /**
   * `getState(key)`: short-circuits on a falsy key or a state that is not a plain
   * object, then walks a shallow copy of the state along the dot-separated key.
   */
  method GetState(store: StoreValue, key: Value) returns (r: Result<Value, Fault>)
    ensures r == StateAt(store, key)
  {
    if !Truthy(key) {
      return Ok(store.state);
    }
    if !IsPlainObject(store.state) {
      return Ok(store.state);
    }
    var current := ShallowCopy(store.state);
    if !key.Str? {
      return Err(SplitNotAFunction);
    }
    var segments := Split(key.s);
    var i := 0;
    while i < |segments|
      invariant 0 <= i <= |segments|
      invariant Walk(current, segments[i..]) == StateAt(store, key)
    {
      assert segments[i..][1..] == segments[i + 1..];
      match GetProperty(current, segments[i]) {
        case None =>
          return Err(CannotRead(segments[i]));
        case Some(next) =>
          current := next;
      }
      i := i + 1;
    }
    return Ok(current);
  }

  /** A falsy key (absent or "") returns the entire state. */
  lemma StateAtWithoutKey(store: StoreValue, key: Value)
    requires !Truthy(key)
    ensures StateAt(store, key) == Ok(store.state)
  {
  }

  /** A state that is not a plain object comes back whatever the key. */
  lemma StateAtNotPlainObject(store: StoreValue, key: Value)
    requires !IsPlainObject(store.state)
    ensures StateAt(store, key) == Ok(store.state)
  {
  }

  /**
   * On a plain-object state, the key that joins dot-free segments reads the value
   * reached by the iterated property lookup along those segments.
   */
  lemma StateAtPath(store: StoreValue, segs: seq<string>)
    requires IsPlainObject(store.state)
    requires |segs| >= 1 && Join(segs) != ""
    requires forall i :: 0 <= i < |segs| ==> '.' !in segs[i]
    ensures StateAt(store, Str(Join(segs))) == Walk(store.state, segs)
  {
    SplitJoin(segs);
  }

  /** `getState("a.b")` is `state.a.b`: a missing `b` reads undefined, a missing `a` raises. */
  lemma StateAtTwoLevels(store: StoreValue, a: string, b: string)
    requires IsPlainObject(store.state)
    requires '.' !in a && '.' !in b
    ensures var r := StateAt(store, Str(a + "." + b));
            var fields := store.state.fields;
            && (a !in fields ==> r == Err(CannotRead(b)))
            && (a in fields && fields[a].Obj? ==>
                  r == Ok(if b in fields[a].fields then fields[a].fields[b] else Undefined))
  {
    assert Join([a, b]) == a + "." + b;
    assert Join([a, b]) != "";
    StateAtPath(store, [a, b]);
    var fields := store.state.fields;
    assert [a, b][1..] == [b];
    assert [b][1..] == [];
    if a in fields {
      assert Walk(store.state, [a, b]) == Walk(fields[a], [b]);
    }
  }

  /** What `getDispatch(key)` returns: the whole table, or the single entry (absent when missing). */
  datatype DispatchLookup = Whole(table: map<string, Reducer>) | Single(entry: Option<Reducer>)

  /** `getDispatch(key)`: `dispatch[key]` for a truthy key, the whole table otherwise. */
  function GetDispatch(store: StoreValue, key: Value): (r: DispatchLookup)
    ensures !Truthy(key) <==> r == Whole(store.dispatch)
    ensures r.Single? ==> (r.entry.Some? <==> ToKey(key) in store.dispatch)
    ensures r.Single? && r.entry.Some? ==> r.entry.value == store.dispatch[ToKey(key)]
  {
    if !Truthy(key) then Whole(store.dispatch)
    else
      var k := ToKey(key);
      Single(if k in store.dispatch then Some(store.dispatch[k]) else None)
  }

  /**
   * On a composed store, `getDispatch(name)` and `getState(name)` for a dot-free
   * name answer with the dispatcher and the initial state of the last definition
   * carrying that name.
   */
  lemma ComposedAccess(input: seq<Nested>, i: int)
    requires Compose(input).Ok?
    requires 0 <= i < |Flatten(input)|
    requires forall j :: i < j < |Flatten(input)| ==> ToKey(Flatten(input)[j].name) != ToKey(Flatten(input)[i].name)
    requires Flatten(input)[i].name.Str? && '.' !in Flatten(input)[i].name.s
    ensures var d := Flatten(input)[i];
            var store := Published(Compose(input).value);
            && GetDispatch(store, d.name).Single?
            && GetDispatch(store, d.name).entry.Some?
            && Validate(d) == Ok(GetDispatch(store, d.name).entry.value)
            && StateAt(store, d.name) == Ok(d.initialState)
  {
    var d := Flatten(input)[i];
    ComposeLastWins(input, i);
    assert Validate(d).Ok?;
    assert Join([d.name.s]) == d.name.s;
    StateAtPath(Published(Compose(input).value), [d.name.s]);
  }

  /** A counter definition: `inc` adds one to the `count` field of the state. */
  function Increment(state: Value, payload: Value): Value {
    if state.Obj? && "count" in state.fields && state.fields["count"].Num?
    then Obj(state.fields["count" := Num(state.fields["count"].n + 1)])
    else state
  }

  /**
   * Mount a store composed of the counter definition, dispatch `inc` through the
   * counter's dispatcher, then read `getState("counter.count")`: it reads 1.
   */
  method CounterScenario() returns (r: Result<Value, Fault>)
    ensures r == Ok(Num(1))
  {
    var counter := Definition(Str("counter"), Obj(map["count" := Num(0)]), Some(map["inc" := Increment]));
    var input := [Leaf(counter)];
    assert Flatten(input) == [counter];
    assert Validate(counter).Ok?;
    var composed := Compose(input);
    ComposeNames(input);
    ComposeLastWins(input, 0);
    var reducers := ValidateAll(Flatten(input)).value;
    var cells := new Cells(reducers);
    assert cells.Snapshot() == composed.value;
    cells.Dispatch("counter", Str("inc"), Undefined);
    ghost var slice := cells.state["counter"];
    assert slice == Obj(map["count" := Num(1)]);
    var store := Published(cells.Snapshot());
    CounterCountReads(store);
    r := GetState(store, Str("counter.count"));
  }

  /** A store whose `counter` slice is `{count: 1}` reads 1 at "counter.count". */
  lemma CounterCountReads(store: StoreValue)
    requires IsPlainObject(store.state) && "counter" in store.state.fields
    requires store.state.fields["counter"] == Obj(map["count" := Num(1)])
    ensures StateAt(store, Str("counter.count")) == Ok(Num(1))
  {
    assert "counter.count" == "counter" + "." + "count";
    StateAtTwoLevels(store, "counter", "count");
  }
}
