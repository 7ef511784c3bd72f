/**
 The APQMLS component: what each leg of a combined group stores about both legs, in the app-data
 dictionary of its group context.
 */
module ApqInfo {
  import opened Prelude

  type GroupId = nat
  type Suite = nat
  type ComponentId = nat

  const APQMLS_COMPONENT_ID: ComponentId := 0x8001

  datatype Mode = ConfOnly | ConfAndAuth

  datatype Info = Info(
    tGroupId: GroupId,
    pqGroupId: GroupId,
    mode: Mode,
    tSuite: Suite,
    pqSuite: Suite,
    tEpoch: nat,
    pqEpoch: nat)
  {
    function SetEpoch(tEpoch: nat, pqEpoch: nat): (r: Info) { this.(tEpoch := tEpoch, pqEpoch := pqEpoch) }
  }

  /** Serialized component data; only bytes written from an `Info` read back as one. */
  datatype Data = Encoded(info: Info) | Opaque(bytes: seq<nat>)

  type Dictionary = map<ComponentId, Data>

  datatype InfoRead = Absent | Malformed | Present(info: Info)

  function FromExtensions(dict: Dictionary): (r: InfoRead) {
    if APQMLS_COMPONENT_ID !in dict then Absent
    else
      match dict[APQMLS_COMPONENT_ID]
      case Encoded(info) => Present(info)
      case Opaque(_) => Malformed
  }

  // ---- App-data updates ----

  datatype AppDataUpdate = Update(component: ComponentId, data: Data) | Remove(component: ComponentId)

  function ApplyUpdate(dict: Dictionary, u: AppDataUpdate): (r: Dictionary) {
    match u
    case Update(id, data) => dict[id := data]
    case Remove(id) => dict - {id}
  }

  /** The dictionary after the proposals of a commit, in order. */
  function Resolve(dict: Dictionary, us: seq<AppDataUpdate>): (r: Dictionary) {
    if us == [] then dict else ApplyUpdate(Resolve(dict, us[..|us| - 1]), us[|us| - 1])
  }

  /** What an updater has gathered: a value per component, or its removal. */
  type Patch = map<ComponentId, Option<Data>>

  function Patched(dict: Dictionary, patch: Patch): (r: Dictionary) {
    map id | id in dict.Keys + patch.Keys && (id in patch ==> patch[id].Some?) ::
      if id in patch then patch[id].value else dict[id]
  }

  /** What the updater has gathered after some proposals. */
  function Gathered(us: seq<AppDataUpdate>): (patch: Patch) {
    if us == [] then map[]
    else
      var u := us[|us| - 1];
      Gathered(us[..|us| - 1])[u.component := if u.Update? then Some(u.data) else None]
  }

  /** The updater reports what it gathered, or nothing if that would change nothing. */
  ghost predicate Reports(dict: Dictionary, changes: Patch -> Option<Patch>) {
    forall patch {:trigger changes(patch)} ::
      changes(patch) == Some(patch) || (changes(patch) == None && Patched(dict, patch) == dict)
  }

  /** The receiver's loop over the proposals; no proposals or no changes, nothing to resolve. */
  method ComputeAppDataUpdates(dict: Dictionary, us: seq<AppDataUpdate>, changes: Patch -> Option<Patch>)
    returns (r: Option<Patch>)
    requires Reports(dict, changes)
    ensures r == if us == [] then None else changes(Gathered(us))
    ensures Resolve(dict, us) == if r.Some? then Patched(dict, r.value) else dict
  {
    var patch: Patch := map[];
    var updated := false;
    assert Patched(dict, patch) == dict;
    for i := 0 to |us|
      invariant updated <==> i > 0
      invariant patch == Gathered(us[..i]) && Patched(dict, patch) == Resolve(dict, us[..i])
    {
      assert us[..i + 1][..i] == us[..i];
      ghost var before := patch;
      match us[i] {
        case Update(id, data) => patch := patch[id := Some(data)];
        case Remove(id) => patch := patch[id := None];
      }
      PatchStep(dict, before, us[i]);
      updated := true;
    }
    assert us[..|us|] == us;
    r := if updated then changes(patch) else None;
  }

  lemma PatchStep(dict: Dictionary, patch: Patch, u: AppDataUpdate)
    ensures Patched(dict, patch[u.component := if u.Update? then Some(u.data) else None]) ==
            ApplyUpdate(Patched(dict, patch), u)
  {
  }

  /** A component no proposal names is untouched. */
  lemma {:induction false} ResolveUntouched(dict: Dictionary, us: seq<AppDataUpdate>, id: ComponentId)
    requires forall u | u in us :: u.component != id
    ensures id in Resolve(dict, us) <==> id in dict
    ensures id in dict ==> Resolve(dict, us)[id] == dict[id]
  {
    if us != [] { ResolveUntouched(dict, us[..|us| - 1], id); }
  }
}
