/** Two decision rules of `arkit8s.py` that read `oc` output: when a
    Deployment or StatefulSet counts as ready (`_check_workload_status`), and
    which expected product Routes are missing (`_record_route_summary`). */
module ClusterChecks {
  import opened Wrappers

  // ----- _check_workload_status -----

  /** The fields of an `oc get <kind> <name> -o json` answer that the rule
      reads. A numeric field is `None` when `int(value)` raises: the key is
      missing, its value is null, or its text is not a number. */
  datatype Workload = Workload(
    kind: string,
    replicas: Option<int>,           // spec.replicas
    readyReplicas: Option<int>,      // status.readyReplicas
    availableReplicas: Option<int>)  // status.availableReplicas

  /** `_as_int(value, default)`. */
  function AsInt(value: Option<int>, default: int): int {
    if value.Some? then value.value else default
  }

  function Desired(w: Workload): int {
    AsInt(w.replicas, 1)
  }

  function ReadyCount(w: Workload): int {
    AsInt(w.readyReplicas, 0)
  }

  /** A missing available count falls back to the ready count. */
  function Available(w: Workload): int {
    AsInt(w.availableReplicas, ReadyCount(w))
  }

  /** A StatefulSet is judged by its ready replicas, any other kind by the
      larger of its ready and available replicas. */
  function EffectiveReady(w: Workload): (r: int)
    ensures w.kind == "StatefulSet" ==> r == ReadyCount(w)
    ensures w.kind != "StatefulSet" ==> r >= ReadyCount(w) && r >= Available(w)
    ensures r == ReadyCount(w) || r == Available(w)
  {
    if w.kind == "StatefulSet" then ReadyCount(w)
    else if ReadyCount(w) >= Available(w) then ReadyCount(w) else Available(w)
  }

  /** `is_ready`: nothing is wanted, or enough replicas are up. Stated
      without the maximum: some count the kind admits reaches the target. */
  function IsReady(w: Workload): (r: bool)
    ensures r <==>
      || Desired(w) == 0
      || ReadyCount(w) >= Desired(w)
      || (w.kind != "StatefulSet" && Available(w) >= Desired(w))
  {
    Desired(w) == 0 || EffectiveReady(w) >= Desired(w)
  }

  /** With no replica figures at all the workload wants one replica and has
      none, so it is not ready. */
  lemma NothingReportedIsNotReady(kind: string)
    ensures !IsReady(Workload(kind, None, None, None))
  {
  }

  /** A workload scaled to zero is ready whatever its status says. */
  lemma ScaledToZeroIsReady(w: Workload)
    requires w.replicas == Some(0)
    ensures IsReady(w)
  {
  }

  /** The available count never matters for a StatefulSet. */
  lemma StatefulSetIgnoresAvailable(w: Workload, available: Option<int>)
    requires w.kind == "StatefulSet"
    ensures IsReady(w.(availableReplicas := available)) == IsReady(w)
  {
  }

  /** Without an available count every kind is judged the same way. */
  lemma MissingAvailableKindIrrelevant(w: Workload, kind: string)
    requires w.availableReplicas.None?
    ensures IsReady(w.(kind := kind)) == IsReady(w)
  {
  }

  /** More ready or available replicas never turn a ready workload into one
      that is not ready. */
  lemma ReadyMonotone(w: Workload, v: Workload)
    requires v.kind == w.kind && Desired(v) == Desired(w)
    requires ReadyCount(v) >= ReadyCount(w) && Available(v) >= Available(w)
    ensures IsReady(w) ==> IsReady(v)
  {
  }

  // ----- _record_route_summary -----

  /** `EXPECTED_PRODUCT_ROUTES` in declaration order: (namespace, name) of
      the Route, and the product it serves. */
  const ExpectedRoutes: seq<((string, string), string)> := [
    (("shared-components", "gitlab-ce"), "GitLab CE"),
    (("shared-components", "keycloak"), "Keycloak"),
    (("support-domain", "architects-visualization"), "Architects Visualization")
  ]

  /** An element of `items`; missing metadata fields read as "". */
  datatype RouteItem = NotAMapping | RouteItem(namespace: string, name: string)

  /** How `oc get route -A -o json` ended. */
  datatype OcResult =
    | OcMissing               // FileNotFoundError: no `oc` on the PATH
    | OcFailed(code: int)     // CalledProcessError with this return code
    | NotJson                 // the output does not parse
    | Listed(items: seq<RouteItem>)

  /** The (namespace, name) pairs a Route listing covers. */
  function Found(items: seq<RouteItem>): set<(string, string)> {
    set i | i in items && i.RouteItem? && i.namespace != "" && i.name != "" :: (i.namespace, i.name)
  }

  /** The products whose Route is not in `found`, in declaration order. */
  function MissingProducts(expected: seq<((string, string), string)>, found: set<(string, string)>): (r: seq<string>)
    ensures forall p :: p in r <==> exists e :: e in expected && e.1 == p && e.0 !in found
    ensures |r| <= |expected|
    decreases |expected|
  {
    if expected == [] then []
    else
      var rest := MissingProducts(expected[1..], found);
      assert forall e :: e in expected <==> e == expected[0] || e in expected[1..];
      if expected[0].0 in found then rest else [expected[0].1] + rest
  }

  function AllProducts(expected: seq<((string, string), string)>): (r: seq<string>)
    ensures |r| == |expected| && forall k :: 0 <= k < |r| ==> r[k] == expected[k].1
  {
    seq(|expected|, k requires 0 <= k < |expected| => expected[k].1)
  }

  /** With nothing found, every product is missing. */
  lemma {:induction false} NothingFoundAllMissing(expected: seq<((string, string), string)>)
    ensures MissingProducts(expected, {}) == AllProducts(expected)
    decreases |expected|
  {
    if expected != [] {
      NothingFoundAllMissing(expected[1..]);
      assert AllProducts(expected) == [expected[0].1] + AllProducts(expected[1..]);
    }
  }

  /** The loop over `items` that fills `found`. */
  method CollectFound(items: seq<RouteItem>) returns (found: set<(string, string)>)
    ensures found == Found(items)
  {
    found := {};
    for k := 0 to |items|
      invariant found == Found(items[..k])
    {
      var item := items[k];
      assert items[..k + 1] == items[..k] + [item];
      if item.RouteItem? && item.namespace != "" && item.name != "" {
        found := found + {(item.namespace, item.name)};
      }
    }
    assert items[..|items|] == items;
  }

  /** `_record_route_summary` without the report file: the exit status and
      the products without a Route. */
  method RouteSummary(result: OcResult) returns (status: int, missing: seq<string>)
    ensures result.OcMissing? || result.NotJson? ==> status == 1 && missing == []
    ensures result.OcFailed? ==> missing == [] && status == (if result.code == 0 then 1 else result.code)
    ensures result.Listed? && result.items == [] ==> status == 1 && missing == AllProducts(ExpectedRoutes)
    ensures result.Listed? && result.items != [] ==>
      missing == MissingProducts(ExpectedRoutes, Found(result.items)) && (status == 0 <==> missing == []) && 0 <= status <= 1
    ensures status == 0 <==>
      result.Listed? && result.items != [] && forall e :: e in ExpectedRoutes ==> e.0 in Found(result.items)
  {
    match result
    case OcMissing =>
      return 1, [];
    case OcFailed(code) =>
      return if code == 0 then 1 else code, [];
    case NotJson =>
      return 1, [];
    case Listed(items) =>
      if items == [] {
        return 1, AllProducts(ExpectedRoutes);
      }
      var found := CollectFound(items);
      missing := MissingProducts(ExpectedRoutes, found);
      status := if missing == [] then 0 else 1;
      if missing != [] {
        assert missing[0] in missing;
      }
  }
}
