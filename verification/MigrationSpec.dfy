/**
 What the API-group migration copies and what it compares (hack/migrate-api-group.py:112-196, 255-266): the
 replacement of a legacy autoscaler, the differences between a recorded spec and a replacement's, and the identity
 check. Specs are arbitrary JSON trees; parsing a Kubernetes quantity is an arbitrary function of the value.
 */
module MigrationSpec {
  import opened Wrappers

  datatype Json =
    | Null
    | Bool(b: bool)
    | Num(n: real)
    | Str(s: string)
    | List(items: seq<Json>)
    | Obj(fields: map<string, Json>)

  type Quantity = Json -> Option<real>

  /** A missing field reads as null. */
  function Get(j: Json, key: string): Json { if j.Obj? && key in j.fields then j.fields[key] else Null }

  predicate Truthy(j: Json) {
    match j
    case Null => false
    case Bool(b) => b
    case Num(n) => n != 0.0
    case Str(s) => s != ""
    case List(items) => items != []
    case Obj(fields) => fields != map[]
  }

  // ---------- spec differences ----------

  function Path(path: string, key: string): string { if path == "" then key else path + "." + key }

  predicate Exempt(p: string) { p == "mode" || p == "targetDeployment.namespace" }

  const CAPACITY_PATH := "metrics.requests.targetRPS"

  /** A legacy targetRPS may live on as the same capacityPerReplica. */
  predicate Carried(q: Quantity, v: Json, dst: Json, key: string, p: string) {
    && p == CAPACITY_PATH && Get(dst, key) == Null && dst.Obj?
    && q(Get(dst, "capacityPerReplica")).Some? && q(Get(dst, "capacityPerReplica")) == q(v)
  }

  predicate FieldAgrees(q: Quantity, v: Json, dst: Json, key: string, path: string)
    decreases v, 2
  {
    var p, w := Path(path, key), Get(dst, key);
    Exempt(p) || Carried(q, v, dst, key, p) || if v.Obj? && w.Obj? then Agrees(q, v, w, p) else v == w
  }

  /** Every field set in `src` has the same value in `dst`, exemptions and the carried capacity apart. */
  predicate Agrees(q: Quantity, src: Json, dst: Json, path: string)
    decreases src, 1
  {
    src.Obj? ==> forall key :: key in src.fields ==> FieldAgrees(q, src.fields[key], dst, key, path)
  }

  /** Collects the paths that differ, field by field: none exactly when the specs agree. */
  method SpecDifferences(q: Quantity, src: Json, dst: Json, path: string) returns (diffs: seq<string>)
    requires src.Obj?
    ensures diffs == [] <==> Agrees(q, src, dst, path)
    decreases src, 1
  {
    diffs := [];
    var keys := src.fields.Keys;
    while keys != {}
      invariant keys <= src.fields.Keys
      invariant diffs == [] <==>
                  forall key | key in src.fields && key !in keys :: FieldAgrees(q, src.fields[key], dst, key, path)
      decreases |keys|
    {
      var key :| key in keys;
      var v := src.fields[key];
      var found := FieldDifferences(q, v, dst, key, path);
      keys := keys - {key};
      diffs := diffs + found;
    }
  }

  method FieldDifferences(q: Quantity, v: Json, dst: Json, key: string, path: string) returns (diffs: seq<string>)
    ensures diffs == [] <==> FieldAgrees(q, v, dst, key, path)
    decreases v, 2
  {
    var p, w := Path(path, key), Get(dst, key);
    if Exempt(p) {
      return [];
    }
    if p == CAPACITY_PATH && w == Null && dst.Obj? {
      var carried := q(Get(dst, "capacityPerReplica"));
      if carried.Some? && carried == q(v) {
        return [];
      }
    }
    if v.Obj? && w.Obj? {
      diffs := SpecDifferences(q, v, w, p);
    } else if v != w {
      diffs := [p];
    } else {
      diffs := [];
    }
  }

  // ---------- what agreement means ----------

  /** The value at a path of keys. */
  function Lookup(j: Json, keys: seq<string>): Json
    decreases |keys|
  {
    if keys == [] then j else Lookup(Get(j, keys[0]), keys[1..])
  }

  /** No part of the path is exempt or the carried capacity. */
  predicate Plain(path: string, keys: seq<string>)
    decreases |keys|
  {
    keys == [] || var p := Path(path, keys[0]); !Exempt(p) && p != CAPACITY_PATH && Plain(p, keys[1..])
  }

  lemma {:induction false} LookupOfLeaf(j: Json, keys: seq<string>)
    requires !j.Obj? && keys != []
    ensures Lookup(j, keys) == Null
    decreases |keys|
  {
    if |keys| > 1 {
      LookupOfLeaf(Null, keys[1..]);
    }
  }

  /** Specs that agree have the same value at every plain path that ends in one. */
  lemma {:induction false} AgreementReachesLeaves(q: Quantity, src: Json, dst: Json, path: string, keys: seq<string>)
    requires Agrees(q, src, dst, path) && keys != [] && Plain(path, keys)
    requires !Lookup(src, keys).Null? && !Lookup(src, keys).Obj?
    ensures Lookup(dst, keys) == Lookup(src, keys)
  {
    if !src.Obj? {
      LookupOfLeaf(src, keys);
    }
    var key, rest := keys[0], keys[1..];
    var v, w := Get(src, key), Get(dst, key);
    if key !in src.fields && rest != [] {
      LookupOfLeaf(v, rest);
    }
    assert FieldAgrees(q, v, dst, key, path);
    if v.Obj? && w.Obj? {
      AgreementReachesLeaves(q, v, w, Path(path, key), rest);
    }
  }

  /** The comparison passes over this field: the mode, the target's namespace, or a request rate that is now the same
      capacity per replica. */
  ghost predicate PassedOver(q: Quantity, v: Json, dst: Json, key: string, p: string) {
    || p == "mode" || p == "targetDeployment.namespace"
    || (p == "metrics.requests.targetRPS" && dst.Obj? && (key !in dst.fields || dst.fields[key] == Null)
        && exists amount: real :: q(Get(dst, "capacityPerReplica")) == Some(amount) && q(v) == Some(amount))
  }

  /** Following these keys leads to a difference: down through objects on both sides, none of them passed over, to a
      field that differs. */
  ghost predicate DiffersAt(q: Quantity, src: Json, dst: Json, path: string, keys: seq<string>)
    decreases |keys|
  {
    && keys != [] && src.Obj? && keys[0] in src.fields
    && var v, w, p := src.fields[keys[0]], Get(dst, keys[0]), if path == "" then keys[0] else path + "." + keys[0];
       && !PassedOver(q, v, dst, keys[0], p)
       && if |keys| == 1 then v != w && !(v.Obj? && w.Obj?) else v.Obj? && w.Obj? && DiffersAt(q, v, w, p, keys[1..])
  }

  lemma PassedOverIff(q: Quantity, v: Json, dst: Json, key: string, p: string)
    ensures PassedOver(q, v, dst, key, p) <==> Exempt(p) || Carried(q, v, dst, key, p)
  {
    var capacity := q(Get(dst, "capacityPerReplica"));
    if capacity.Some? && capacity == q(v) {
      var amount := capacity.value;
      assert q(Get(dst, "capacityPerReplica")) == Some(amount) && q(v) == Some(amount);
    }
  }

  lemma {:induction false} DifferenceMeansDisagreement(q: Quantity, src: Json, dst: Json, path: string,
                                                       keys: seq<string>)
    requires DiffersAt(q, src, dst, path, keys)
    ensures !Agrees(q, src, dst, path)
    decreases |keys|
  {
    var v, w, p := src.fields[keys[0]], Get(dst, keys[0]), Path(path, keys[0]);
    PassedOverIff(q, v, dst, keys[0], p);
    if |keys| > 1 {
      DifferenceMeansDisagreement(q, v, w, p, keys[1..]);
    }
    assert !FieldAgrees(q, v, dst, keys[0], path);
  }

  lemma {:induction false} DisagreementMeansDifference(q: Quantity, src: Json, dst: Json, path: string)
      returns (keys: seq<string>)
    requires !Agrees(q, src, dst, path)
    ensures DiffersAt(q, src, dst, path, keys)
    decreases src
  {
    var key :| key in src.fields && !FieldAgrees(q, src.fields[key], dst, key, path);
    var v, w, p := src.fields[key], Get(dst, key), Path(path, key);
    PassedOverIff(q, v, dst, key, p);
    keys := [key];
    if v.Obj? && w.Obj? {
      var rest := DisagreementMeansDifference(q, v, w, p);
      keys := [key] + rest;
      assert keys[1..] == rest;
    }
  }

  /** Specs agree, so that no difference is reported, exactly when no path of keys leads to one. */
  lemma AgreesIff(q: Quantity, src: Json, dst: Json, path: string)
    ensures Agrees(q, src, dst, path) <==> !exists keys :: Difference(q, src, dst, path, keys)
  {
    if keys :| Difference(q, src, dst, path, keys) {
      DifferenceMeansDisagreement(q, src, dst, path, keys);
    }
    if !Agrees(q, src, dst, path) {
      var keys := DisagreementMeansDifference(q, src, dst, path);
      assert Difference(q, src, dst, path, keys);
    }
  }

  ghost predicate Difference(q: Quantity, src: Json, dst: Json, path: string, keys: seq<string>) {
    DiffersAt(q, src, dst, path, keys)
  }

  /** `b` is `a` with fields added at any depth, as a server's defaults do. */
  predicate Extends(a: Json, b: Json)
    decreases a
  {
    if a.Obj? then b.Obj? && forall key :: key in a.fields ==> Extends(a.fields[key], Get(b, key)) else a == b
  }

  lemma {:induction false} ExtensionAgrees(q: Quantity, src: Json, dst: Json, path: string)
    requires Extends(src, dst)
    ensures Agrees(q, src, dst, path)
    decreases src
  {
    if src.Obj? {
      forall key | key in src.fields ensures FieldAgrees(q, src.fields[key], dst, key, path) {
        assert Extends(src.fields[key], Get(dst, key));
        if src.fields[key].Obj? {
          ExtensionAgrees(q, src.fields[key], Get(dst, key), Path(path, key));
        }
      }
    }
  }

  // ---------- the replacement ----------

  datatype Autoscaler = Autoscaler(namespace: Json, name: string, uid: string, annotations: map<string, string>,
      spec: Json)

  datatype Error = NotAnObject

  const MIGRATED_FROM := "autoscaling.devkuban.com/migrated-from"
  const MIGRATED_FROM_UID := "autoscaling.devkuban.com/migrated-from-uid"

  function Or(j: Json, other: Json): Json { if Truthy(j) then j else other }

  const EMPTY := Obj(map[])

  /** Namespace and name of the target Deployment. */
  function TargetOf(o: Autoscaler): Result<(Json, Json), Error> {
    var spec := Or(o.spec, EMPTY);
    if !spec.Obj? then Err(NotAnObject)
    else
      var td := Or(Get(spec, "targetDeployment"), EMPTY);
      if !td.Obj? then Err(NotAnObject)
      else Ok((Or(Get(td, "namespace"), o.namespace), if "name" in td.fields then td.fields["name"] else Str("")))
  }

  /** The new-group object of a legacy autoscaler: in its target's namespace, in Recommend mode, with its provenance. */
  function ReplacementFor(legacy: Autoscaler, reference: string, name: string, kept: string -> bool)
    : Result<Autoscaler, Error>
  {
    var target := TargetOf(legacy);
    if target.Err? then Err(target.error)
    else
      var fields := Or(legacy.spec, EMPTY).fields["mode" := Str("Recommend")];
      var td := if "targetDeployment" in fields then fields["targetDeployment"] else EMPTY;
      if !td.Obj? then Err(NotAnObject)
      else
        var annotations := map k | k in legacy.annotations && kept(k) :: legacy.annotations[k];
        Ok(Autoscaler(target.value.0, name, "",
                      annotations[MIGRATED_FROM := reference][MIGRATED_FROM_UID := legacy.uid],
                      Obj(fields["targetDeployment" := Obj(td.fields["namespace" := target.value.0])])))
  }

  /** What the plan records of a legacy autoscaler. */
  datatype Entry = Entry(reference: string, uid: string, spec: Json, target: (Json, Json))

  function EntryOf(legacy: Autoscaler, reference: string): Result<Entry, Error> {
    var target := TargetOf(legacy);
    if target.Err? then Err(target.error) else Ok(Entry(reference, legacy.uid, Or(legacy.spec, EMPTY), target.value))
  }

  predicate FromSource(o: Autoscaler, e: Entry) {
    && MIGRATED_FROM in o.annotations && o.annotations[MIGRATED_FROM] == e.reference
    && MIGRATED_FROM_UID in o.annotations && o.annotations[MIGRATED_FROM_UID] == e.uid
  }

  /** The object is the recorded source's migrated one, with the recorded target and configuration. */
  predicate Identical(q: Quantity, o: Autoscaler, e: Entry) {
    FromSource(o, e) && TargetOf(o) == Ok(e.target) && Agrees(q, e.spec, Or(o.spec, EMPTY), "")
  }

  method IdentityProblems(q: Quantity, o: Autoscaler, e: Entry) returns (problems: seq<string>)
    requires e.spec.Obj?
    ensures problems == [] <==> Identical(q, o, e)
  {
    problems := [];
    if !FromSource(o, e) {
      problems := problems + ["not the migrated replacement"];
    }
    if TargetOf(o) != Ok(e.target) {
      problems := problems + ["target differs from the recorded target"];
    }
    var diffs := SpecDifferences(q, e.spec, Or(o.spec, EMPTY), "");
    problems := problems + diffs;
  }

  // ---------- the replacement passes ----------

  /** Null, false, zero, and the empty string, list and object. */
  predicate Blank(j: Json) {
    j == Null || j == Bool(false) || j == Num(0.0) || j == Str("") || j == List([]) || j == Obj(map[])
  }

  lemma BlankIff(j: Json)
    ensures Blank(j) <==> !Truthy(j)
  {
  }

  /** A replacement can be made exactly when the spec is blank or an object whose target is absent or an object. */
  lemma ReplacementDefined(legacy: Autoscaler, reference: string, name: string, kept: string -> bool)
    ensures ReplacementFor(legacy, reference, name, kept).Ok? <==>
              || Blank(legacy.spec)
              || (legacy.spec.Obj? && ("targetDeployment" in legacy.spec.fields ==>
                                         legacy.spec.fields["targetDeployment"].Obj?))
  {
    BlankIff(legacy.spec);
    var spec := Or(legacy.spec, EMPTY);
    if spec.Obj? {
      assert "targetDeployment" in spec.fields["mode" := Str("Recommend")] <==> "targetDeployment" in spec.fields;
    }
  }

  /** The namespace a legacy autoscaler's target is in: the one it names, or its own. */
  ghost predicate TargetNamespace(legacy: Autoscaler, td: Json, ns: Json) {
    var named := Get(td, "namespace");
    ns == if Blank(named) then legacy.namespace else named
  }

  /** What the replacement is: the same spec but for Recommend mode and the target's namespace, which it also lives in,
      with the kept annotations and its provenance. */
  lemma ReplacementIs(legacy: Autoscaler, reference: string, name: string, kept: string -> bool, o: Autoscaler)
    requires ReplacementFor(legacy, reference, name, kept) == Ok(o)
    ensures o.name == name && o.spec.Obj? && Get(o.spec, "targetDeployment").Obj?
    ensures var fields := if legacy.spec.Obj? then legacy.spec.fields else map[];
            var td := if "targetDeployment" in fields then fields["targetDeployment"] else Obj(map[]);
            && TargetNamespace(legacy, td, o.namespace)
            && o.spec.fields.Keys == fields.Keys + {"mode", "targetDeployment"}
            && Get(o.spec, "mode") == Str("Recommend")
            && (forall k :: k in fields && k != "mode" && k != "targetDeployment" ==> Get(o.spec, k) == fields[k])
            && td.Obj? && Get(o.spec, "targetDeployment") == Obj(td.fields["namespace" := o.namespace])
    ensures forall k :: k in o.annotations <==>
                          k == MIGRATED_FROM || k == MIGRATED_FROM_UID || (k in legacy.annotations && kept(k))
    ensures forall k :: k in o.annotations ==>
              o.annotations[k] == if k == MIGRATED_FROM_UID then legacy.uid else if k == MIGRATED_FROM then reference
                                  else legacy.annotations[k]
  {
    BlankIff(legacy.spec);
    var fields := if legacy.spec.Obj? then legacy.spec.fields else map[];
    assert Or(legacy.spec, EMPTY) == Obj(fields);
    var td := if "targetDeployment" in fields then fields["targetDeployment"] else Obj(map[]);
    BlankIff(Get(td, "namespace"));
    assert o.spec == Edited(fields, td, o.namespace);
  }

  /** The target object with its namespace set agrees with the one it came from, whatever the server adds. */
  lemma TargetAgrees(q: Quantity, td: Json, ns: Json, served: Json)
    requires td.Obj? && Extends(Obj(td.fields["namespace" := ns]), served)
    ensures Agrees(q, td, served, "targetDeployment")
  {
    var edited := Obj(td.fields["namespace" := ns]);
    forall key | key in td.fields ensures FieldAgrees(q, td.fields[key], served, key, "targetDeployment") {
      if key == "namespace" {
        assert "targetDeployment" + "." + "namespace" == "targetDeployment.namespace";
        assert Exempt(Path("targetDeployment", key));
      } else {
        assert edited.fields[key] == td.fields[key] && key in edited.fields;
        assert Extends(td.fields[key], Get(served, key));
        ExtensionAgrees(q, td.fields[key], Get(served, key), Path("targetDeployment", key));
      }
    }
  }

  /** The spec of a replacement. */
  function Edited(fields: map<string, Json>, td: Json, ns: Json): Json
    requires td.Obj?
  {
    Obj(fields["mode" := Str("Recommend")]["targetDeployment" := Obj(td.fields["namespace" := ns])])
  }

  lemma SpecAgrees(q: Quantity, fields: map<string, Json>, td: Json, ns: Json, served: Json)
    requires td.Obj? && ("targetDeployment" in fields ==> fields["targetDeployment"] == td)
    requires Extends(Edited(fields, td, ns), served)
    ensures Agrees(q, Obj(fields), served, "")
  {
    var edited := Edited(fields, td, ns);
    forall key | key in fields ensures FieldAgrees(q, fields[key], served, key, "") {
      assert key in edited.fields && Extends(edited.fields[key], Get(served, key));
      if key == "targetDeployment" {
        TargetAgrees(q, td, ns, Get(served, key));
      } else if key != "mode" {
        assert edited.fields[key] == fields[key];
        ExtensionAgrees(q, fields[key], Get(served, key), key);
      }
    }
  }

  /** The server keeps the metadata and every set field and may add defaults anywhere, but leaves the target's name and
      namespace alone. */
  ghost predicate ServedFrom(o: Autoscaler, served: Autoscaler) {
    && served.namespace == o.namespace && served.annotations == o.annotations && Extends(o.spec, served.spec)
    && SameTarget(Get(o.spec, "targetDeployment"), Get(served.spec, "targetDeployment"))
  }

  predicate SameTarget(td: Json, served: Json) {
    && td.Obj? && served.Obj?
    && Get(served, "namespace") == Get(td, "namespace") && Get(served, "name") == Get(td, "name")
    && ("name" in served.fields <==> "name" in td.fields)
  }

  /** Reading the target of a served object whose namespace was set gives it back. */
  lemma TargetRead(o: Autoscaler, td: Json, ns: Json)
    requires o.spec.Obj? && o.namespace == ns && td.Obj?
    requires SameTarget(Obj(td.fields["namespace" := ns]), Get(o.spec, "targetDeployment"))
    ensures TargetOf(o) == Ok((ns, if "name" in td.fields then td.fields["name"] else Str("")))
  {
    var edited, read := td.fields["namespace" := ns], Get(o.spec, "targetDeployment");
    assert "namespace" in edited;
    assert Truthy(o.spec);
    if "name" in td.fields {
      assert edited["name"] == td.fields["name"];
    }
    assert Get(read, "namespace") == ns;
  }

  /**
   Round trip: for every nested spec for which a replacement can be made, the replacement passes the identity check
   against the plan's entry, as written and with whatever defaults the server adds.
   */
  lemma ReplacementPasses(q: Quantity, legacy: Autoscaler, reference: string, name: string, kept: string -> bool,
                          served: Autoscaler)
    requires ReplacementFor(legacy, reference, name, kept).Ok?
    requires ServedFrom(ReplacementFor(legacy, reference, name, kept).value, served)
    ensures EntryOf(legacy, reference).Ok? && Identical(q, served, EntryOf(legacy, reference).value)
  {
    var o := ReplacementFor(legacy, reference, name, kept).value;
    var fields, ns := Or(legacy.spec, EMPTY).fields, TargetOf(legacy).value.0;
    var td := if "targetDeployment" in fields then fields["targetDeployment"] else EMPTY;
    assert o.spec == Edited(fields, td, ns);
    SpecAgrees(q, fields, td, ns, served.spec);
    TargetRead(served, td, ns);
    TargetRecorded(legacy, td);
    assert FromSource(o, EntryOf(legacy, reference).value);
    assert Truthy(served.spec) by {
      assert "targetDeployment" in served.spec.fields;
    }
  }

  lemma TargetRecorded(legacy: Autoscaler, td: Json)
    requires Or(legacy.spec, EMPTY).Obj? && td.Obj?
    requires var fields := Or(legacy.spec, EMPTY).fields;
             td == if "targetDeployment" in fields then fields["targetDeployment"] else EMPTY
    ensures TargetOf(legacy).Ok?
    ensures TargetOf(legacy).value.1 == if "name" in td.fields then td.fields["name"] else Str("")
  {
  }
}
