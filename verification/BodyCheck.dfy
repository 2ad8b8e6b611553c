/**
 The request-body check of a camera route: an explicit worklist over the parsed
 body, proved equal to a recursive reading of the rule.
 */
module BodyCheck {
  import opened Common
  import opened Strings
  import opened Json
  import RoutePath

  predicate IsCameraKey(key: string) {
    key == "camera_id" || key == "edge_camera_id" || key == "camera_ids"
  }

  /** The camera id a JSON value denotes: an unsigned number or a numeric string. */
  function IdOf(v: Value): Option<nat> {
    match v
    case Num(Unsigned(n)) => Some(n)
    case Str(s) => ParseU64(s)
    case _ => None
  }

  function Ids(v: Value): seq<Value> {
    if v.Arr? then v.items else [v]
  }

  predicate NamesOnly(v: Value, camera: nat) {
    forall id :: id in Ids(v) ==> IdOf(id) == Some(camera)
  }

  /** `v` is the value of a camera-id field reached without passing through another one. */
  ghost predicate Exposed(body: Value, v: Value)
    decreases body
  {
    match body
    case Obj(fields) =>
      exists f :: f in fields &&
        if f.key in {"camera_id", "edge_camera_id", "camera_ids"} then f.value == v else Exposed(f.value, v)
    case Arr(items) => exists x :: x in items && Exposed(x, v)
    case _ => false
  }

  /** The recursive reading: every exposed camera-id field names only `camera`. */
  predicate OnlyCamera(body: Value, camera: nat) {
    match body
    case Obj(fields) =>
      forall f :: f in fields ==>
        if IsCameraKey(f.key) then NamesOnly(f.value, camera) else OnlyCamera(f.value, camera)
    case Arr(items) => forall x :: x in items ==> OnlyCamera(x, camera)
    case _ => true
  }

  lemma {:induction false} OnlyCameraMeansExposed(body: Value, camera: nat)
    ensures OnlyCamera(body, camera) <==> forall v :: Exposed(body, v) ==> NamesOnly(v, camera)
    decreases body
  {
    match body
    case Obj(fields) =>
      forall f | f in fields && !IsCameraKey(f.key)
        ensures OnlyCamera(f.value, camera) <==> forall v :: Exposed(f.value, v) ==> NamesOnly(v, camera)
      {
        OnlyCameraMeansExposed(f.value, camera);
      }
      if forall v :: Exposed(body, v) ==> NamesOnly(v, camera) {
        forall f | f in fields
          ensures if IsCameraKey(f.key) then NamesOnly(f.value, camera) else OnlyCamera(f.value, camera)
        {
          if IsCameraKey(f.key) {
            assert Exposed(body, f.value);
          } else {
            forall v | Exposed(f.value, v) ensures NamesOnly(v, camera) {
              assert Exposed(body, v);
            }
          }
        }
      }
    case Arr(items) =>
      forall x | x in items
        ensures OnlyCamera(x, camera) <==> forall v :: Exposed(x, v) ==> NamesOnly(v, camera)
      {
        OnlyCameraMeansExposed(x, camera);
      }
      if forall v :: Exposed(body, v) ==> NamesOnly(v, camera) {
        forall x | x in items ensures OnlyCamera(x, camera) {
          forall v | Exposed(x, v) ensures NamesOnly(v, camera) {
            assert Exposed(body, v);
          }
        }
      }
    case _ =>
  }

  /** The values of the fields that are not camera ids, in order. */
  function Deferred(fields: seq<Field>): seq<Value> {
    if fields == [] then []
    else
      var last := fields[|fields| - 1];
      Deferred(fields[..|fields| - 1]) + if IsCameraKey(last.key) then [] else [last.value]
  }

  lemma {:induction false} DeferredShrinks(fields: seq<Field>)
    ensures Nodes(Deferred(fields)) <= FieldNodes(fields)
  {
    if fields != [] {
      var init, last := fields[..|fields| - 1], fields[|fields| - 1];
      DeferredShrinks(init);
      NodesAppend(Deferred(init), if IsCameraKey(last.key) then [] else [last.value]);
      assert [last.value][..0] == [];
    }
  }

  lemma {:induction false} DeferredMembers(fields: seq<Field>, v: Value)
    ensures v in Deferred(fields) <==> exists f :: f in fields && !IsCameraKey(f.key) && f.value == v
  {
    if fields != [] {
      var init, last := fields[..|fields| - 1], fields[|fields| - 1];
      DeferredMembers(init, v);
      assert fields == init + [last];
    }
  }

  ghost predicate AllOnly(vs: seq<Value>, camera: nat) {
    forall v :: v in vs ==> OnlyCamera(v, camera)
  }

  ghost predicate CameraFieldsMatch(fields: seq<Field>, camera: nat) {
    forall f :: f in fields && IsCameraKey(f.key) ==> NamesOnly(f.value, camera)
  }

  lemma ObjectSplits(fields: seq<Field>, camera: nat)
    ensures OnlyCamera(Obj(fields), camera) <==> CameraFieldsMatch(fields, camera) && AllOnly(Deferred(fields), camera)
  {
    forall v ensures v in Deferred(fields) <==> exists f :: f in fields && !IsCameraKey(f.key) && f.value == v {
      DeferredMembers(fields, v);
    }
    forall f | f in fields && !IsCameraKey(f.key) ensures f.value in Deferred(fields) {
    }
    if OnlyCamera(Obj(fields), camera) {
      forall v | v in Deferred(fields) ensures OnlyCamera(v, camera) {
        var f :| f in fields && !IsCameraKey(f.key) && f.value == v;
      }
    }
  }

  /** What popping `value` off the worklist and queueing `queued` instead does to it. */
  lemma WorklistStep(rest: seq<Value>, value: Value, queued: seq<Value>, camera: nat)
    requires Nodes(queued) < NodesIn(value)
    requires OnlyCamera(value, camera) <==> AllOnly(queued, camera)
    ensures AllOnly(rest + [value], camera) <==> AllOnly(rest + queued, camera)
    ensures Nodes(rest + queued) < Nodes(rest + [value])
  {
    NodesAppend(rest, queued);
    assert (rest + [value])[..|rest|] == rest;
    if AllOnly(rest + [value], camera) {
      assert value in rest + [value];
    }
    if AllOnly(rest + queued, camera) {
      assert forall v :: v in queued ==> v in rest + queued;
      assert forall v :: v in rest ==> v in rest + queued;
    }
  }

  /** One object: check its camera-id fields and collect the others for later. */
  method CheckFields(fields: seq<Field>, camera: nat) returns (ok: bool, queued: seq<Value>)
    ensures ok <==> CameraFieldsMatch(fields, camera)
    ensures ok ==> queued == Deferred(fields)
  {
    queued := [];
    var k := 0;
    while k < |fields|
      invariant 0 <= k <= |fields|
      invariant queued == Deferred(fields[..k])
      invariant CameraFieldsMatch(fields[..k], camera)
    {
      var field := fields[k];
      assert fields[..k + 1] == fields[..k] + [field];
      if IsCameraKey(field.key) {
        if exists id :: id in Ids(field.value) && IdOf(id) != Some(camera) {
          assert field in fields;
          return false, queued;
        }
      } else {
        queued := queued + [field.value];
      }
      k := k + 1;
    }
    assert fields[..k] == fields;
    ok := true;
  }

  /**
   The worklist: pop a value, check the camera-id fields of an object, queue
   everything else. Terminates because the nodes still queued shrink.
   */
  method CheckCameras(payload: Option<Value>, camera: nat) returns (ok: bool)
    ensures ok <==> (payload.Some? ==> OnlyCamera(payload.value, camera))
  {
    var pending: seq<Value> := if payload.Some? then [payload.value] else [];
    while pending != []
      invariant (payload.Some? ==> OnlyCamera(payload.value, camera)) <==> AllOnly(pending, camera)
      decreases Nodes(pending)
    {
      var value, rest := pending[|pending| - 1], pending[..|pending| - 1];
      assert pending == rest + [value];
      var queued := [];
      match value {
        case Obj(fields) =>
          ObjectSplits(fields, camera);
          DeferredShrinks(fields);
          var matched;
          matched, queued := CheckFields(fields, camera);
          if !matched {
            assert value in pending;
            return false;
          }
        case Arr(items) =>
          queued := items;
        case _ =>
      }
      WorklistStep(rest, value, queued, camera);
      pending := rest + queued;
    }
    ok := true;
  }

  /** The capability a pan-tilt-zoom action needs; unknown actions need one nobody holds. */
  function PtzPermission(action: Option<string>): Option<string> {
    match action
    case None => None
    case Some(a) =>
      if a in {"move", "relative_move", "absolute_move", "stop", "goto_preset", "goto_home"} then Some("live.ptz")
      else if a in {"set_preset", "remove_preset", "set_home", "aux"} then Some("settings.write")
      else None
  }

  /** The string under `key` when `payload` is an object holding one. */
  function StringField(payload: Option<Value>, key: string): Option<string> {
    if payload.Some? && payload.value.Obj? then FieldString(payload.value.fields, key) else None
  }

  function FieldString(fields: seq<Field>, key: string): Option<string> {
    if fields == [] then None
    else if fields[0].key == key then (if fields[0].value.Str? then Some(fields[0].value.s) else None)
    else FieldString(fields[1..], key)
  }

  /** The camera a route addresses, when it is a camera route with a numeric id. */
  function RouteCamera(parts: seq<string>): Option<nat> {
    if |parts| >= 3 && parts[0] == "admin" && parts[1] == "cameras" then ParseU64(parts[2]) else None
  }

  predicate IsPtzCall(verb: string, parts: seq<string>) {
    |parts| == 4 && parts[3] == "ptz" && ToUpper(verb) == "POST"
  }

  /** The body rule, read declaratively. */
  predicate BodyAllowed(verb: string, path: string, permission: string, payload: Option<Value>) {
    match RoutePath.PathParts(path)
    case None => false
    case Some(parts) =>
      match RouteCamera(parts)
      case None => true
      case Some(camera) =>
        && (IsPtzCall(verb, parts) ==> PtzPermission(StringField(payload, "action")) == Some(permission))
        && (payload.Some? ==> OnlyCamera(payload.value, camera))
  }

  method BodyMatches(verb: string, path: string, permission: string, payload: Option<Value>) returns (ok: bool)
    ensures ok <==> BodyAllowed(verb, path, permission, payload)
  {
    var parts := RoutePath.PathParts(path);
    if parts.None? {
      return false;
    }
    var camera := RouteCamera(parts.value);
    if camera.None? {
      return true;
    }
    if IsPtzCall(verb, parts.value) {
      var required := PtzPermission(StringField(payload, "action"));
      if required != Some(permission) {
        return false;
      }
    }
    ok := CheckCameras(payload, camera.value);
  }

  /**
   On every accepted camera request, whatever the body's shape, an exposed
   camera-id field can only name the camera the normalized route addresses.
   */
  lemma BodyNamesRouteCamera(verb: string, path: string, permission: string, body: Value, v: Value, id: Value)
    requires BodyAllowed(verb, path, permission, Some(body))
    requires RouteCamera(RoutePath.PathParts(path).value).Some?
    requires Exposed(body, v) && id in Ids(v)
    ensures IdOf(id) == RouteCamera(RoutePath.PathParts(path).value)
  {
    var camera := RouteCamera(RoutePath.PathParts(path).value).value;
    OnlyCameraMeansExposed(body, camera);
    assert NamesOnly(v, camera);
  }

  // ----- the rule, said without the check's own functions -----

  /** The JSON value writes the id `n`, as an unsigned number or as a numeral. */
  ghost predicate Denotes(v: Value, n: nat) {
    v == Num(Unsigned(n)) || (v.Str? && Numeral(v.s, n) && n < U64_LIMIT)
  }

  lemma IdIff(v: Value, n: nat)
    ensures IdOf(v) == Some(n) <==> Denotes(v, n)
  {
    if v.Str? {
      ParseIff(v.s, n);
    }
  }

  /** `id` is the value itself, or one of its items when it is an array. */
  predicate ItemOf(v: Value, id: Value) {
    if v.Arr? then id in v.items else id == v
  }

  ghost predicate AddressesCamera(parts: seq<string>, camera: nat) {
    && |parts| >= 3 && parts[0] == "admin" && parts[1] == "cameras"
    && Numeral(parts[2], camera) && camera < U64_LIMIT
  }

  lemma CameraIff(parts: seq<string>, camera: nat)
    ensures RouteCamera(parts) == Some(camera) <==> AddressesCamera(parts, camera)
  {
    if |parts| >= 3 {
      ParseIff(parts[2], camera);
    }
  }

  /** The payload is an object whose first field named `action` holds the string `action`. */
  ghost predicate HasAction(payload: Option<Value>, action: string) {
    && payload.Some? && payload.value.Obj?
    && exists k :: 0 <= k < |payload.value.fields|
         && payload.value.fields[k] == Field("action", Str(action))
         && forall j :: 0 <= j < k ==> payload.value.fields[j].key != "action"
  }

  lemma {:induction false} FieldIff(fields: seq<Field>, key: string, text: string)
    ensures FieldString(fields, key) == Some(text) <==>
            exists k :: 0 <= k < |fields| && fields[k] == Field(key, Str(text))
                        && forall j :: 0 <= j < k ==> fields[j].key != key
  {
    if fields != [] {
      var rest := fields[1..];
      FieldIff(rest, key, text);
      if fields[0].key == key {
        if k :| 0 <= k < |fields| && fields[k] == Field(key, Str(text))
                && forall j :: 0 <= j < k ==> fields[j].key != key {
          assert k == 0;
        }
      } else {
        if k :| 0 <= k < |rest| && rest[k] == Field(key, Str(text)) && forall j :: 0 <= j < k ==> rest[j].key != key {
          assert fields[k + 1] == rest[k];
          assert forall j :: 0 <= j < k + 1 ==> fields[j].key != key;
        }
        if k :| 0 <= k < |fields| && fields[k] == Field(key, Str(text))
                && forall j :: 0 <= j < k ==> fields[j].key != key {
          assert rest[k - 1] == fields[k];
          assert forall j :: 0 <= j < k - 1 ==> rest[j] == fields[j + 1];
        }
      }
    }
  }

  /** Which capability lets a caller perform a pan-tilt-zoom action. */
  predicate ActionNeeds(action: string, permission: string) {
    || (action in {"move", "relative_move", "absolute_move", "stop", "goto_preset", "goto_home"}
        && permission == "live.ptz")
    || (action in {"set_preset", "remove_preset", "set_home", "aux"} && permission == "settings.write")
  }

  /**
   A request's body fits its route: a pan-tilt-zoom call names an action its
   capability covers, and every exposed camera id is the route's camera.
   */
  ghost predicate BodyRule(verb: string, path: string, permission: string, payload: Option<Value>) {
    exists parts :: RoutePath.NamesRoute(path, parts)
      && forall camera: nat :: AddressesCamera(parts, camera) ==> CameraRule(verb, parts, permission, payload, camera)
  }

  /** What the rule asks on a route that addresses `camera`. */
  ghost predicate CameraRule(verb: string, parts: seq<string>, permission: string, payload: Option<Value>,
                             camera: nat) {
    && (|parts| == 4 && parts[3] == "ptz" && Uppercased(verb, "POST") ==>
          exists action :: HasAction(payload, action) && ActionNeeds(action, permission))
    && (payload.Some? ==>
          forall v, id :: Exposed(payload.value, v) && ItemOf(v, id) ==> Denotes(id, camera))
  }

  /** The check accepts exactly the bodies the rule allows. */
  lemma BodyRuleIff(verb: string, path: string, permission: string, payload: Option<Value>)
    ensures BodyAllowed(verb, path, permission, payload) <==> BodyRule(verb, path, permission, payload)
  {
    hide RoutePath.PathParts, RoutePath.NamesRoute, RouteCamera, AddressesCamera, CameraRule, OnlyCamera;
    hide StringField, PtzPermission, IsPtzCall;
    var route := RoutePath.PathParts(path);
    forall parts ensures route == Some(parts) <==> RoutePath.NamesRoute(path, parts) {
      RoutePath.RouteIff(path, parts);
    }
    if route.Some? {
      forall camera: nat ensures RouteCamera(route.value) == Some(camera) <==> AddressesCamera(route.value, camera) {
        CameraIff(route.value, camera);
      }
      if RouteCamera(route.value).Some? {
        CameraRuleIff(verb, route.value, permission, payload, RouteCamera(route.value).value);
      }
    }
  }

  lemma CameraRuleIff(verb: string, parts: seq<string>, permission: string, payload: Option<Value>, camera: nat)
    ensures CameraRule(verb, parts, permission, payload, camera) <==>
            && (IsPtzCall(verb, parts) ==> PtzPermission(StringField(payload, "action")) == Some(permission))
            && (payload.Some? ==> OnlyCamera(payload.value, camera))
  {
    UpperIff(verb, "POST");
    PtzIff(payload, permission);
    if payload.Some? {
      CamerasIff(payload.value, camera);
    }
    hide ToUpper, Uppercased, OnlyCamera, Exposed, StringField, PtzPermission, HasAction, ActionNeeds;
  }

  lemma PtzIff(payload: Option<Value>, permission: string)
    ensures PtzPermission(StringField(payload, "action")) == Some(permission)
       <==> exists action :: HasAction(payload, action) && ActionNeeds(action, permission)
  {
    if payload.Some? && payload.value.Obj? {
      forall action ensures StringField(payload, "action") == Some(action) <==> HasAction(payload, action) {
        FieldIff(payload.value.fields, "action", action);
      }
    }
  }

  lemma CamerasIff(body: Value, camera: nat)
    ensures OnlyCamera(body, camera) <==> forall v, id :: Exposed(body, v) && ItemOf(v, id) ==> Denotes(id, camera)
  {
    OnlyCameraMeansExposed(body, camera);
    forall v ensures NamesOnly(v, camera) <==> forall id :: ItemOf(v, id) ==> Denotes(id, camera) {
      NamesIff(v, camera);
    }
    if forall v, id :: Exposed(body, v) && ItemOf(v, id) ==> Denotes(id, camera) {
      forall v | Exposed(body, v) ensures NamesOnly(v, camera) {
      }
    }
  }

  lemma NamesIff(v: Value, camera: nat)
    ensures NamesOnly(v, camera) <==> forall id :: ItemOf(v, id) ==> Denotes(id, camera)
  {
    forall id ensures IdOf(id) == Some(camera) <==> Denotes(id, camera) {
      IdIff(id, camera);
    }
    forall id ensures id in Ids(v) <==> ItemOf(v, id) {
    }
  }
}
