/**
 * Model metadata: the native descriptor a module reports (ModelInfo.h
 * `ModelInfo`, PluginModel.py `c_model_info`) and the host's `ModelInfo`
 * built from it, with its five flag-derived name lists.
 */
module Metadata {
  import opened Results
  import opened Wire
  import opened Protocol

  /** One parameter's schema; the native record and the host's copy have the same fields. */
  datatype ParameterInfo = ParameterInfo(
    name: string,
    description: Option<string>,
    unit: Option<string>,
    default: Double,
    dispmin: Double,
    dispmax: Double,
    flags: bv64)

  /** The native descriptor; its ParameterCount is the length of `parameters`. */
  datatype Descriptor = Descriptor(
    version: nat,
    name: Option<string>,
    description: Option<string>,
    parameters: seq<ParameterInfo>)

  /** The host's description of one model type; the flag lists are derived from `parameters`. */
  datatype ModelInfo = ModelInfo(
    name: Option<string>,
    description: Option<string>,
    parameters: seq<ParameterInfo>)
  {
    function Orientation(): (r: seq<string>)
      ensures |r| <= |parameters|
      ensures forall x :: x in r <==> Flagged(parameters, ORIENTATION, x)
    {
      NamesWithListed(parameters, ORIENTATION);
      NamesWithLength(parameters, ORIENTATION);
      NamesWith(parameters, ORIENTATION)
    }

    function Magnetic(): (r: seq<string>)
      ensures |r| <= |parameters|
      ensures forall x :: x in r <==> Flagged(parameters, MAGNETIC, x)
    {
      NamesWithListed(parameters, MAGNETIC);
      NamesWithLength(parameters, MAGNETIC);
      NamesWith(parameters, MAGNETIC)
    }

    function Unfittable(): (r: seq<string>)
      ensures |r| <= |parameters|
      ensures forall x :: x in r <==> Flagged(parameters, UNFITTABLE, x)
    {
      NamesWithListed(parameters, UNFITTABLE);
      NamesWithLength(parameters, UNFITTABLE);
      NamesWith(parameters, UNFITTABLE)
    }

    function Integer(): (r: seq<string>)
      ensures |r| <= |parameters|
      ensures forall x :: x in r <==> Flagged(parameters, INTEGER, x)
    {
      NamesWithListed(parameters, INTEGER);
      NamesWithLength(parameters, INTEGER);
      NamesWith(parameters, INTEGER)
    }

    function Polydisperse(): (r: seq<string>)
      ensures |r| <= |parameters|
      ensures forall x :: x in r <==> Flagged(parameters, POLYDISPERSE, x)
    {
      NamesWithListed(parameters, POLYDISPERSE);
      NamesWithLength(parameters, POLYDISPERSE);
      NamesWith(parameters, POLYDISPERSE)
    }
  }

  /** Some parameter named x carries flag f. */
  ghost predicate Flagged(ps: seq<ParameterInfo>, f: bv64, x: string)
  {
    exists i | 0 <= i < |ps| :: ps[i].name == x && HasFlag(ps[i].flags, f)
  }

  /** `[p.name for p in ps if p.flags & f]` */
  function NamesWith(ps: seq<ParameterInfo>, f: bv64): seq<string>
  {
    if ps == [] then []
    else
      var last := ps[|ps| - 1];
      NamesWith(ps[..|ps| - 1], f) + (if HasFlag(last.flags, f) then [last.name] else [])
  }

  /** The filter keeps parameter order: it distributes over concatenation. */
  lemma {:induction false} NamesWithAppend(a: seq<ParameterInfo>, b: seq<ParameterInfo>, f: bv64)
    ensures NamesWith(a + b, f) == NamesWith(a, f) + NamesWith(b, f)
  {
    if b != [] {
      var front := b[..|b| - 1];
      assert (a + b)[..|a + b| - 1] == a + front;
      NamesWithAppend(a, front, f);
    } else {
      assert a + b == a;
    }
  }

  /** A name is listed exactly when some parameter with that name carries the flag. */
  lemma {:induction false} NamesWithMembers(ps: seq<ParameterInfo>, f: bv64, x: string)
    ensures x in NamesWith(ps, f) <==> exists i :: 0 <= i < |ps| && ps[i].name == x && HasFlag(ps[i].flags, f)
  {
    if ps != [] {
      var front := ps[..|ps| - 1];
      NamesWithMembers(front, f, x);
      if x in NamesWith(front, f) {
        var i :| 0 <= i < |front| && front[i].name == x && HasFlag(front[i].flags, f);
        assert ps[i] == front[i];
      }
      if exists i :: 0 <= i < |ps| && ps[i].name == x && HasFlag(ps[i].flags, f) {
        var i :| 0 <= i < |ps| && ps[i].name == x && HasFlag(ps[i].flags, f);
        if i < |front| {
          assert front[i] == ps[i];
        }
      }
    }
  }

  /** The flag list holds exactly the names of the flagged parameters. */
  lemma NamesWithListed(ps: seq<ParameterInfo>, f: bv64)
    ensures forall x :: x in NamesWith(ps, f) <==> Flagged(ps, f, x)
  {
    forall x
      ensures x in NamesWith(ps, f) <==> Flagged(ps, f, x)
    {
      NamesWithMembers(ps, f, x);
    }
  }

  lemma {:induction false} NamesWithLength(ps: seq<ParameterInfo>, f: bv64)
    ensures |NamesWith(ps, f)| <= |ps|
    ensures (forall i :: 0 <= i < |ps| ==> HasFlag(ps[i].flags, f)) ==> |NamesWith(ps, f)| == |ps|
  {
    if ps != [] {
      NamesWithLength(ps[..|ps| - 1], f);
    }
  }

  /** A RepeatCount parameter is always among the unfittable ones. */
  lemma RepeatCountListedUnfittable(info: ModelInfo, i: nat)
    requires i < |info.parameters|
    requires HasAllBits(info.parameters[i].flags, REPEAT_COUNT)
    ensures info.parameters[i].name in info.Unfittable()
  {
    RepeatCountIsUnfittable(info.parameters[i].flags);
    NamesWithMembers(info.parameters, UNFITTABLE, info.parameters[i].name);
  }

  datatype MetadataError = VersionMismatch(version: nat)

  /**
   * `get_model_info`: refuse a descriptor of another version, otherwise copy
   * every parameter record, in order, into the host's ModelInfo.
   */
  method GetModelInfo(d: Descriptor) returns (r: Result<ModelInfo, MetadataError>)
    ensures r.Err? <==> d.version != API_VERSION
    ensures r.Err? ==> r.error == VersionMismatch(d.version)
    ensures r.Ok? ==> r.value.name == d.name && r.value.description == d.description
    ensures r.Ok? ==> r.value.parameters == d.parameters
  {
    if d.version != API_VERSION {
      return Err(VersionMismatch(d.version));
    }
    var parameters: seq<ParameterInfo> := [];
    var i := 0;
    while i < |d.parameters|
      invariant 0 <= i <= |d.parameters|
      invariant parameters == d.parameters[..i]
    {
      var q := d.parameters[i];
      parameters := parameters + [ParameterInfo(q.name, q.description, q.unit, q.default, q.dispmin, q.dispmax, q.flags)];
      i := i + 1;
    }
    assert d.parameters[..i] == d.parameters;
    return Ok(ModelInfo(d.name, d.description, parameters));
  }
}
