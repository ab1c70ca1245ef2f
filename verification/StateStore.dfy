/** The outputs a run has seen, and the parameters its steps are called with. */
module StateStore {
  import opened Common
  import opened WorkflowModel
  import opened Template

  /** Text parameters are expanded; the others, and all keys, stay. */
  function Resolved(env: Env, marshal: Value -> string, v: Value): Value {
    if v.Str? then Str(Expand(env, marshal, v.s)) else v
  }

  function ResolvedAll(env: Env, marshal: Value -> string, params: map<string, Value>): map<string, Value> {
    map k | k in params :: Resolved(env, marshal, params[k])
  }

  method NavigatePath(data: Value, path: seq<string>) returns (current: Value)
    ensures current == Navigate(data, path)
  {
    current := data;
    for i := 0 to |path|
      invariant Navigate(current, path[i..]) == Navigate(data, path)
    {
      assert path[i..][1..] == path[i + 1..];
      if !current.Obj? {
        return Null;
      }
      current := if path[i] in current.fields then current.fields[path[i]] else Null;
    }
  }

  lemma Prefix(r: string, f: string, e: string)
    ensures r + (f + e) == (r + f) + e
  {}

  class State {
    var data: map<string, Value>

    constructor ()
      ensures data == map[]
    {
      data := map[];
    }

    method Set(step: string, result: Value)
      modifies this
      ensures data == old(data)[step := result]
    {
      data := data[step := result];
    }

    method Get(step: string) returns (found: Option<Value>)
      ensures found == if step in data then Some(data[step]) else None
    {
      found := if step in data then Some(data[step]) else None;
    }

    /** A copy shares nothing with the original. */
    method Copy() returns (copy: State)
      ensures fresh(copy) && copy.data == data
    {
      copy := new State();
      var rest := data.Keys;
      while rest != {}
        invariant rest <= data.Keys && fresh(copy)
        invariant copy.data.Keys == data.Keys - rest
        invariant forall k :: k in copy.data ==> copy.data[k] == data[k]
      {
        var k :| k in rest;
        copy.Set(k, data[k]);
        rest := rest - {k};
      }
    }

    /** The replacement of one placeholder. */
    method Replace(marshal: Value -> string, p: string) returns (text: string)
      ensures text == Render(data, marshal, p)
    {
      var parts := Split(p);
      var found := Get(parts[0]);
      if found.None? {
        return Hole(p);
      }
      var v := NavigatePath(found.value, parts[1..]);
      text := if v.Str? then v.s else marshal(v);
    }

    /** One pass over a text, from left to right. */
    method ResolveText(marshal: Value -> string, text: string) returns (r: string)
      ensures r == Expand(data, marshal, text)
    {
      r := "";
      var rest := text;
      while rest != ""
        invariant r + Expand(data, marshal, rest) == Expand(data, marshal, text)
        decreases |rest|
      {
        ExpandOnce(data, marshal, rest);
        ghost var next := rest[FirstSize(rest)..];
        Prefix(r, First(data, marshal, rest), Expand(data, marshal, next));
        match LeadingHole(rest) {
          case Some(p) =>
            var inserted := Replace(marshal, p);
            r, rest := r + inserted, rest[|p| + 4..];
          case None =>
            r, rest := r + [rest[0]], rest[1..];
        }
        assert rest == next;
      }
    }

    method Resolve(marshal: Value -> string, params: map<string, Value>) returns (resolved: map<string, Value>)
      ensures resolved == ResolvedAll(data, marshal, params)
      ensures resolved.Keys == params.Keys
      ensures forall k :: k in params && !params[k].Str? ==> resolved[k] == params[k]
      ensures forall k :: k in params && params[k].Str? ==> resolved[k] == Str(Expand(data, marshal, params[k].s))
    {
      resolved := map[];
      var rest := params.Keys;
      while rest != {}
        invariant rest <= params.Keys
        invariant resolved.Keys == params.Keys - rest
        invariant forall k :: k in resolved ==> resolved[k] == Resolved(data, marshal, params[k])
      {
        var k :| k in rest;
        if params[k].Str? {
          var text := ResolveText(marshal, params[k].s);
          resolved := resolved[k := Str(text)];
        } else {
          resolved := resolved[k := params[k]];
        }
        rest := rest - {k};
      }
    }
  }

  /** The steps of a layer in the order in which their goroutines happen to run. */
  predicate IsOrder(order: seq<nat>, n: nat) {
    && (forall k :: 0 <= k < |order| ==> order[k] < n)
    && (forall i :: 0 <= i < n ==> i in order)
  }

  /**
   * Each step of a layer works on its own copy of the run's state, and records its output there. Whatever the order,
   * every step is called with the parameters that the state before the layer gives, and that state stays as it was.
   */
  method RunLayer(state: State, marshal: Value -> string, layer: seq<StepDef>, outputs: seq<Value>, order: seq<nat>)
    returns (calls: map<nat, map<string, Value>>)
    requires IsOrder(order, |layer|) && |outputs| == |layer|
    ensures forall i: nat :: i in calls <==> i < |layer|
    ensures forall i :: i in calls ==> calls[i] == ResolvedAll(state.data, marshal, layer[i].params)
    ensures state.data == old(state.data)
  {
    calls := map[];
    for k := 0 to |order|
      invariant forall j :: 0 <= j < k ==> order[j] in calls
      invariant forall i :: i in calls ==> i < |layer| && calls[i] == ResolvedAll(state.data, marshal, layer[i].params)
    {
      var i := order[k];
      var own := state.Copy();
      var params := own.Resolve(marshal, layer[i].params);
      calls := calls[i := params];
      own.Set(layer[i].id, outputs[i]);
    }
    forall i: nat | i < |layer| ensures i in calls {
      assert i in order;
    }
  }

  // ---- A whole run -----------------------------------------------------------------------------

  /** A stored step record: whether it is SUCCESS, and its output as an object, if it has one that parses. */
  datatype StepOutput = StepOutput(step: string, success: bool, output: Option<map<string, Value>>)

  predicate Visible(r: StepOutput, step: string) {
    r.step == step && r.success && r.output.Some?
  }

  predicate DistinctSteps(records: seq<StepOutput>) {
    forall i, j :: 0 <= i < j < |records| ==> records[i].step != records[j].step
  }

  /** The state at the start of a run, from the records in the order in which they are listed. */
  function Rehydrated(records: seq<StepOutput>): Env {
    if records == [] then map[]
    else
      var before, r := Rehydrated(records[..|records| - 1]), records[|records| - 1];
      if Visible(r, r.step) then before[r.step := Obj(r.output.value)] else before
  }

  /** It holds exactly the outputs of the steps that are SUCCESS, whatever the order of the records. */
  lemma {:induction false} RehydratedExactly(records: seq<StepOutput>, step: string)
    requires DistinctSteps(records)
    ensures step in Rehydrated(records) <==>
      exists i :: 0 <= i < |records| && records[i].step == step && records[i].success && records[i].output.Some?
    ensures forall i :: 0 <= i < |records| && records[i].step == step && records[i].success && records[i].output.Some? ==>
      step in Rehydrated(records) && Rehydrated(records)[step] == Obj(records[i].output.value)
  {
    if records == [] {
    } else {
      var n := |records| - 1;
      RehydratedExactly(records[..n], step);
      assert forall i :: 0 <= i < n ==> records[..n][i] == records[i];
    }
  }

  method Rehydrate(records: seq<StepOutput>) returns (state: State)
    ensures fresh(state) && state.data == Rehydrated(records)
  {
    state := new State();
    for i := 0 to |records|
      invariant fresh(state) && state.data == Rehydrated(records[..i])
    {
      assert records[..i + 1][..i] == records[..i];
      if records[i].success && records[i].output.Some? {
        state.Set(records[i].step, Obj(records[i].output.value));
      }
    }
    assert records[..|records|] == records;
  }

  /** The parameters a step of the run is called with. */
  function ParamsAt(records: seq<StepOutput>, marshal: Value -> string, s: StepDef): map<string, Value> {
    ResolvedAll(Rehydrated(records), marshal, s.params)
  }

  ghost predicate CalledWith(
    records: seq<StepOutput>, marshal: Value -> string, layer: seq<StepDef>, calls: map<nat, map<string, Value>>)
  {
    && (forall i: nat :: i in calls <==> i < |layer|)
    && (forall i :: i in calls ==> calls[i] == ParamsAt(records, marshal, layer[i]))
  }

  /**
   * In a whole run every step sees the outputs that were stored before the run, and none that the run itself produces:
   * the outputs and the orders do not occur in what is called.
   */
  method RunAllLayers(
    records: seq<StepOutput>, marshal: Value -> string, plan: seq<seq<StepDef>>, outputs: StepDef -> Value,
    orders: nat -> seq<nat>)
    returns (calls: seq<map<nat, map<string, Value>>>)
    requires forall k :: 0 <= k < |plan| ==> IsOrder(orders(k), |plan[k]|)
    ensures |calls| == |plan|
    ensures forall k :: 0 <= k < |plan| ==> CalledWith(records, marshal, plan[k], calls[k])
  {
    var state := Rehydrate(records);
    calls := [];
    for k := 0 to |plan|
      invariant |calls| == k && state.data == Rehydrated(records)
      invariant forall j :: 0 <= j < k ==> CalledWith(records, marshal, plan[j], calls[j])
    {
      var produced := seq(|plan[k]|, i requires 0 <= i < |plan[k]| => outputs(plan[k][i]));
      var called := RunLayer(state, marshal, plan[k], produced, orders(k));
      calls := calls + [called];
    }
  }
}
