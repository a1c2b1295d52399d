/** The keyword registry of `BumblebeeNode` (lib/bumblebee-node.js): an
    object keyed by keyword name whose values hold the model data and the
    detection sensitivity, plus the global default sensitivity. Object keys
    keep their insertion order, and overwriting a key keeps its place, so
    the registry is an ordered sequence of entries with unique names. */
module Registry {
  import opened Basics

  /** Where a keyword's acoustic model comes from: one of the built-in
      keyword files, or data the caller supplied (opaque here). */
  datatype Model = BuiltIn(keyword: string) | Supplied(handle: nat)

  datatype Entry = Entry(name: string, data: Model, sensitivity: real)

  datatype Registry = Registry(sensitivity: real, entries: seq<Entry>)

  /** The keywords lib/porcupine-v1.8/index.js ships models for. */
  const DefaultHotwords: set<string> := {"bumblebee", "grasshopper", "hey_edison", "porcupine", "terminator"}

  /** The constructor's state: global sensitivity 0, no keywords. */
  const Fresh: Registry := Registry(0.0, [])

  function Names(entries: seq<Entry>): seq<string>
  {
    seq(|entries|, i requires 0 <= i < |entries| => entries[i].name)
  }

  predicate UniqueNames(entries: seq<Entry>)
  {
    forall i, j :: 0 <= i < j < |entries| ==> entries[i].name != entries[j].name
  }

  /** The position of `name` in the registry, if it is registered. */
  function IndexOf(entries: seq<Entry>, name: string): (r: Option<nat>)
    ensures r.Some? ==> r.value < |entries| && entries[r.value].name == name
    ensures r.Some? ==> forall j :: 0 <= j < r.value ==> entries[j].name != name
    ensures r.None? ==> forall j :: 0 <= j < |entries| ==> entries[j].name != name
  {
    if |entries| == 0 then None
    else if entries[0].name == name then Some(0)
    else match IndexOf(entries[1..], name)
      case None => None
      case Some(i) => Some(i + 1)
  }

  /** `this.hotwords[name]`. */
  function Lookup(entries: seq<Entry>, name: string): Option<Entry>
  {
    match IndexOf(entries, name)
    case None => None
    case Some(i) => Some(entries[i])
  }

  /** The first position holding `name` is its index. */
  lemma IndexOfIs(entries: seq<Entry>, name: string, i: nat)
    requires i < |entries| && entries[i].name == name
    requires forall j :: 0 <= j < i ==> entries[j].name != name
    ensures IndexOf(entries, name) == Some(i)
  {
  }

  lemma IndexOfAbsent(entries: seq<Entry>, name: string)
    requires forall j :: 0 <= j < |entries| ==> entries[j].name != name
    ensures IndexOf(entries, name) == None
  {
  }

  /** Two registries that agree on the name at every position have the
      same index for every name. */
  lemma IndexOfSameNames(a: seq<Entry>, b: seq<Entry>, name: string)
    requires Names(a) == Names(b)
    ensures IndexOf(a, name) == IndexOf(b, name)
  {
    assert |a| == |Names(a)| == |Names(b)| == |b|;
    assert forall j :: 0 <= j < |a| ==> a[j].name == Names(a)[j] == Names(b)[j] == b[j].name;
    match IndexOf(a, name)
    case None => IndexOfAbsent(b, name);
    case Some(i) => IndexOfIs(b, name, i);
  }

  /** `this.hotwords[e.name] = e`: overwrite in place, or append. */
  function Put(entries: seq<Entry>, e: Entry): (r: seq<Entry>)
    ensures Lookup(r, e.name) == Some(e)
    ensures forall x :: x != e.name ==> Lookup(r, x) == Lookup(entries, x)
    ensures e.name in Names(entries) ==> Names(r) == Names(entries)
    ensures e.name !in Names(entries) ==> Names(r) == Names(entries) + [e.name]
    ensures UniqueNames(entries) ==> UniqueNames(r)
  {
    match IndexOf(entries, e.name)
    case Some(i) =>
      var r := entries[i := e];
      assert Names(entries)[i] == e.name;
      assert Names(r) == Names(entries);
      LookupUpdate(entries, i, e);
      r
    case None =>
      var r := entries + [e];
      assert Names(r) == Names(entries) + [e.name];
      assert e.name !in Names(entries);
      LookupAppend(entries, e);
      r
  }

  lemma LookupUpdate(entries: seq<Entry>, i: nat, e: Entry)
    requires IndexOf(entries, e.name) == Some(i)
    ensures Lookup(entries[i := e], e.name) == Some(e)
    ensures forall x :: x != e.name ==> Lookup(entries[i := e], x) == Lookup(entries, x)
  {
    var r := entries[i := e];
    IndexOfIs(r, e.name, i);
    forall x | x != e.name
      ensures Lookup(r, x) == Lookup(entries, x)
    {
      match IndexOf(entries, x)
      case None =>
        IndexOfAbsent(r, x);
      case Some(k) =>
        assert k != i;
        IndexOfIs(r, x, k);
    }
  }

  lemma LookupAppend(entries: seq<Entry>, e: Entry)
    requires IndexOf(entries, e.name).None?
    ensures Lookup(entries + [e], e.name) == Some(e)
    ensures forall x :: x != e.name ==> Lookup(entries + [e], x) == Lookup(entries, x)
  {
    var r := entries + [e];
    IndexOfIs(r, e.name, |entries|);
    forall x | x != e.name
      ensures Lookup(r, x) == Lookup(entries, x)
    {
      match IndexOf(entries, x)
      case None =>
        IndexOfAbsent(r, x);
      case Some(k) =>
        IndexOfIs(r, x, k);
    }
  }

  datatype AddError = NoHotwordData

  /** `sensitivity || this.sensitivity`: an absent or zero argument is falsy. */
  function PickSensitivity(sensitivity: Option<real>, global: real): real
  {
    if sensitivity.Some? && sensitivity.value != 0.0 then sensitivity.value else global
  }

  /** `addHotword(name, data, sensitivity)`. Missing data falls back to the
      built-in model of that name; if there is none the call throws and
      the registry stays as it was. */
  function AddHotword(reg: Registry, name: string, data: Option<Model>, sensitivity: Option<real>): (r: Result<Registry, AddError>)
    ensures r.Err? <==> data.None? && name !in DefaultHotwords
    ensures r.Ok? ==> r.value.sensitivity == reg.sensitivity
    ensures r.Ok? ==>
      Lookup(r.value.entries, name) == Some(Entry(name, if data.Some? then data.value else BuiltIn(name), PickSensitivity(sensitivity, reg.sensitivity)))
    ensures r.Ok? ==> forall x :: x != name ==> Lookup(r.value.entries, x) == Lookup(reg.entries, x)
    ensures r.Ok? && name in Names(reg.entries) ==> Names(r.value.entries) == Names(reg.entries)
    ensures r.Ok? && name !in Names(reg.entries) ==> Names(r.value.entries) == Names(reg.entries) + [name]
    ensures r.Ok? && UniqueNames(reg.entries) ==> UniqueNames(r.value.entries)
  {
    var model :=
      if data.Some? then data
      else if name in DefaultHotwords then Some(BuiltIn(name))
      else None;
    match model
    case None => Err(NoHotwordData)
    case Some(m) => Ok(reg.(entries := Put(reg.entries, Entry(name, m, PickSensitivity(sensitivity, reg.sensitivity)))))
  }

  /** The `for (let name in this.hotwords)` loop of `setSensitivity`. */
  function Retune(entries: seq<Entry>, sensitivity: real): (r: seq<Entry>)
    ensures |r| == |entries|
    ensures forall i :: 0 <= i < |r| ==>
      r[i].name == entries[i].name && r[i].data == entries[i].data && r[i].sensitivity == sensitivity
  {
    if |entries| == 0 then []
    else [entries[0].(sensitivity := sensitivity)] + Retune(entries[1..], sensitivity)
  }

  /** `setSensitivity(v)`: the new global default, and also the sensitivity
      of every keyword already registered. */
  function SetSensitivity(reg: Registry, sensitivity: real): (r: Registry)
    ensures r.sensitivity == sensitivity
    ensures Names(r.entries) == Names(reg.entries)
    ensures forall x :: Lookup(r.entries, x).Some? <==> Lookup(reg.entries, x).Some?
    ensures forall x :: Lookup(r.entries, x).Some? ==>
      Lookup(r.entries, x).value == Lookup(reg.entries, x).value.(sensitivity := sensitivity)
    ensures UniqueNames(reg.entries) ==> UniqueNames(r.entries)
  {
    var entries := Retune(reg.entries, sensitivity);
    assert Names(entries) == Names(reg.entries);
    LookupRetune(reg.entries, entries, sensitivity);
    Registry(sensitivity, entries)
  }

  lemma LookupRetune(entries: seq<Entry>, r: seq<Entry>, sensitivity: real)
    requires |r| == |entries|
    requires forall i :: 0 <= i < |r| ==>
      r[i].name == entries[i].name && r[i].data == entries[i].data && r[i].sensitivity == sensitivity
    ensures forall x :: Lookup(r, x).Some? <==> Lookup(entries, x).Some?
    ensures forall x :: Lookup(r, x).Some? ==> Lookup(r, x).value == Lookup(entries, x).value.(sensitivity := sensitivity)
  {
    assert Names(r) == Names(entries);
    forall x
      ensures IndexOf(r, x) == IndexOf(entries, x)
    {
      IndexOfSameNames(r, entries, x);
    }
  }

  /** What `initPorcupine` hands to the engine: the model and sensitivity
      arrays, and `keywordIndex`, which maps an engine result back to a name. */
  datatype Snapshot = Snapshot(keywordIndex: seq<string>, models: seq<Model>, sensitivities: seq<real>)

  /** The `for (let id in this.hotwords)` loop of `initPorcupine`, pushing
      one entry per iteration. */
  function InitPorcupine(entries: seq<Entry>): (s: Snapshot)
    ensures |s.keywordIndex| == |s.models| == |s.sensitivities| == |entries|
    ensures forall i :: 0 <= i < |entries| ==>
      s.keywordIndex[i] == entries[i].name && s.models[i] == entries[i].data && s.sensitivities[i] == entries[i].sensitivity
  {
    if |entries| == 0 then Snapshot([], [], [])
    else
      var s := InitPorcupine(entries[..|entries| - 1]);
      var e := entries[|entries| - 1];
      Snapshot(s.keywordIndex + [e.name], s.models + [e.data], s.sensitivities + [e.sensitivity])
  }

  /** Engine result `i` names the keyword whose model and sensitivity were
      passed to the engine at position `i`. */
  lemma SnapshotResolves(entries: seq<Entry>, i: nat)
    requires UniqueNames(entries) && i < |entries|
    ensures var s := InitPorcupine(entries);
      Lookup(entries, s.keywordIndex[i]) == Some(Entry(s.keywordIndex[i], s.models[i], s.sensitivities[i]))
  {
    var s := InitPorcupine(entries);
    IndexOfIs(entries, s.keywordIndex[i], i);
  }
}
