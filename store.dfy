/**
 * The parameter value store of a model session (PluginModel.py
 * `PluginModelParameterCollection`, `PolydisperseParameter`): a dictionary
 * whose key set is fixed when it is built.
 */
module Store {
  import opened Results
  import opened Wire
  import opened Protocol
  import opened Metadata

  /** A stored value: a plain number, or a distribution of values with their weights. */
  datatype Value = Scalar(x: Double) | Distribution(values: seq<Double>, weights: seq<Double>)

  datatype StoreError =
    | AttributeError(name: string)   // assignment to a key that is not present
    | DeletionRefused(name: string)  // `__delattr__` always raises

  class ParameterCollection {
    var entries: map<string, Value>

    /** `__init__`: the key set is that of the initial dictionary, and stays so. */
    constructor (init: map<string, Value>)
      ensures entries == init
    {
      entries := init;
    }

    /** `__getattr__` / `__getitem__`: None stands for the KeyError of a missing key. */
    function Get(name: string): (r: Option<Value>)
      reads this
      ensures r.Some? <==> name in entries
      ensures r.Some? ==> r.value == entries[name]
    {
      if name in entries then Some(entries[name]) else None
    }

    /** `__len__`: the number of parameter names held. */
    function Len(): (r: nat)
      reads this
      ensures r == |entries.Keys|
      ensures r == 0 <==> entries == map[]
    {
      |entries|
    }

    /** `__setattr__` and `__setitem__`: replace the value of a present key, refuse any other. */
    method Set(name: string, v: Value) returns (r: Outcome<StoreError>)
      modifies this
      ensures r.Pass? <==> name in old(entries)
      ensures r.Pass? ==> entries == old(entries)[name := v]
      ensures r.Pass? ==> Get(name) == Some(v)
      ensures r.Fail? ==> Get(name) == None
      ensures forall n | n != name :: Get(n) == old(Get(n))
      ensures r.Fail? ==> r.error == AttributeError(name) && entries == old(entries)
      ensures entries.Keys == old(entries.Keys) && Len() == old(Len())
    {
      if name !in entries {
        return Fail(AttributeError(name));
      }
      entries := entries[name := v];
      return Pass;
    }

    /** `__delattr__`: deletion is never allowed and removes nothing. */
    method Delete(name: string) returns (r: Outcome<StoreError>)
      ensures r == Fail(DeletionRefused(name))
      ensures entries == old(entries)
    {
      return Fail(DeletionRefused(name));
    }
  }

  /** A new session's value: the declared default, as a one-point distribution of weight 1.0 when polydisperse. */
  function DefaultValue(p: ParameterInfo): Value
  {
    if IsPolydisperse(p.flags) then Distribution([p.default], [ONE]) else Scalar(p.default)
  }

  /** The dictionary comprehension of `create_model`: a later parameter of the same name wins. */
  function DefaultParameters(ps: seq<ParameterInfo>): map<string, Value>
  {
    if ps == [] then map[]
    else
      var last := ps[|ps| - 1];
      DefaultParameters(ps[..|ps| - 1])[last.name := DefaultValue(last)]
  }

  /** The key set of the defaults is the set of parameter names. */
  lemma {:induction false} DefaultParametersKeys(ps: seq<ParameterInfo>)
    ensures DefaultParameters(ps).Keys == set i | 0 <= i < |ps| :: ps[i].name
  {
    if ps != [] {
      var front := ps[..|ps| - 1];
      DefaultParametersKeys(front);
      var s := set i | 0 <= i < |ps| :: ps[i].name;
      var t := set i | 0 <= i < |front| :: front[i].name;
      assert s == t + {ps[|ps| - 1].name} by {
        forall x | x in s ensures x in t + {ps[|ps| - 1].name} {
          var i :| 0 <= i < |ps| && ps[i].name == x;
          if i < |front| { assert front[i] == ps[i]; }
        }
        forall x | x in t ensures x in s {
          var i :| 0 <= i < |front| && front[i].name == x;
          assert ps[i] == front[i];
        }
      }
    }
  }

  /** A parameter whose name no later parameter reuses gets its own default. */
  lemma {:induction false} DefaultParametersValue(ps: seq<ParameterInfo>, i: nat)
    requires i < |ps|
    requires forall j :: i < j < |ps| ==> ps[j].name != ps[i].name
    ensures ps[i].name in DefaultParameters(ps)
    ensures DefaultParameters(ps)[ps[i].name] == DefaultValue(ps[i])
  {
    var front := ps[..|ps| - 1];
    if i < |front| {
      DefaultParametersValue(front, i);
      assert front[i] == ps[i];
    }
  }
}
