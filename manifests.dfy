/** Component metadata read from the architecture manifests: the comma
    separated `architecture.invoked_by` / `architecture.calls` annotations,
    the components `utilities/generate-network-policies.py` and
    `arkit8s.py generate-network-policies` build NetworkPolicies for, and the
    calls / invoked_by reciprocity audit of `arkit8s.py validate-metadata`.
    A manifest file is a sequence of YAML documents; walking and parsing the
    files is not part of this model. */
module Manifests {
  import opened Wrappers
  import opened Seqs
  import opened Strings

  // ----- annotation lists -----

  const InvokedByKey := "architecture.invoked_by"
  const CallsKey := "architecture.calls"
  const PartOfKey := "architecture.part_of"

  /** The stripped, non-blank pieces, in order. */
  function StrippedPieces(pieces: seq<string>): seq<string>
    decreases |pieces|
  {
    if pieces == [] then []
    else if PyStrip(pieces[0]) == [] then StrippedPieces(pieces[1..])
    else [PyStrip(pieces[0])] + StrippedPieces(pieces[1..])
  }

  /** `[s.strip() for s in value.split(",") if s.strip()]`. */
  function AnnotationList(value: string): seq<string> {
    StrippedPieces(Split(value, ","))
  }

  /** The annotation `key` of a manifest read as a list: `annotations.get(key, "")`. */
  function Annotation(annotations: map<string, string>, key: string): seq<string> {
    AnnotationList(if key in annotations then annotations[key] else "")
  }

  /** A name as it can appear in an annotation list. */
  predicate Clean(name: string) {
    name != [] && ',' !in name && !IsPyWhitespace(name[0]) && !IsPyWhitespace(name[|name| - 1])
  }

  /** A stripped piece of text without commas is clean once non-empty. */
  lemma StrippedClean(piece: string)
    requires ',' !in piece && PyStrip(piece) != []
    ensures Clean(PyStrip(piece))
  {
    var r := PyStrip(piece);
    var i := StripOffset(piece, IsPyWhitespace);
    assert i + |r| <= |piece| && r == piece[i..i + |r|] && !IsPyWhitespace(r[0]) && !IsPyWhitespace(r[|r| - 1]) by {
      StripIsSlice(piece, IsPyWhitespace);
    }
    forall k | 0 <= k < |r| ensures r[k] != ',' {
      assert r[k] == piece[i + k];
    }
  }

  lemma {:induction false} StrippedPiecesClean(pieces: seq<string>)
    requires forall k :: 0 <= k < |pieces| ==> ',' !in pieces[k]
    ensures forall k :: 0 <= k < |StrippedPieces(pieces)| ==> Clean(StrippedPieces(pieces)[k])
    decreases |pieces|
  {
    if pieces != [] {
      StrippedPiecesClean(pieces[1..]);
      if PyStrip(pieces[0]) != [] {
        StrippedClean(pieces[0]);
      }
    }
  }

  /** A comma never survives inside a piece of a split on commas. */
  lemma NoCommaInPieces(value: string)
    ensures forall k :: 0 <= k < |Split(value, ",")| ==> ',' !in Split(value, ",")[k]
  {
    SplitPiecesLackSeparator(value, ",");
    forall k | 0 <= k < |Split(value, ",")| ensures ',' !in Split(value, ",")[k] {
      var piece := Split(value, ",")[k];
      forall j | 0 <= j < |piece| ensures piece[j] != ',' {
        assert !OccursAt(piece, ",", j);
        assert piece[j..j + 1] == [piece[j]];
      }
    }
  }

  /** Every entry of an annotation list is non-empty, holds no comma, and
      neither starts nor ends with whitespace. */
  lemma AnnotationListClean(value: string)
    ensures forall k :: 0 <= k < |AnnotationList(value)| ==> Clean(AnnotationList(value)[k])
  {
    NoCommaInPieces(value);
    StrippedPiecesClean(Split(value, ","));
  }

  lemma {:induction false} StrippedPiecesOfClean(names: seq<string>)
    requires forall k :: 0 <= k < |names| ==> Clean(names[k])
    ensures StrippedPieces(names) == names
    decreases |names|
  {
    if names != [] {
      StripUnchanged(names[0], IsPyWhitespace);
      StrippedPiecesOfClean(names[1..]);
    }
  }

  /** Clean names written as a comma separated list read back unchanged. */
  lemma AnnotationListRoundTrip(names: seq<string>)
    requires names != [] && forall k :: 0 <= k < |names| ==> Clean(names[k])
    ensures AnnotationList(Join(names, ",")) == names
  {
    SplitJoin(names, ",");
    StrippedPiecesOfClean(names);
  }

  /** Whitespace around the names and empty pieces leave no trace. */
  lemma AnnotationListBlank(value: string)
    requires IsPyBlank(value)
    ensures AnnotationList(value) == []
  {
    assert ',' !in value by {
      forall k | 0 <= k < |value| ensures value[k] != ',' {
        assert IsPyWhitespace(value[k]);
      }
    }
    FindAbsent(value, ',');
    PyStripEmptyIff(value);
    assert Split(value, ",") == [value];
    assert StrippedPieces([value]) == StrippedPieces([]);
  }

  // ----- manifests and components -----

  /** The `metadata` of a manifest, when it is a non-empty mapping. A key
      that is absent is `None`; absent annotations are an empty map. */
  datatype Meta = Meta(name: Option<string>, namespace: Option<string>, annotations: map<string, string>)

  /** One YAML document of a manifest file. `metadata == None` stands for a
      missing or empty `metadata` mapping. */
  datatype Doc = NotAMapping | Manifest(kind: Option<string>, metadata: Option<Meta>)

  /** A component as the policy generators record it. */
  datatype Component = Component(
    name: Option<string>,
    namespace: Option<string>,
    kind: Option<string>,
    invokedBy: seq<string>,
    calls: seq<string>)

  function ComponentOf(doc: Doc): Component
    requires doc.Manifest? && doc.metadata.Some?
  {
    var meta := doc.metadata.value;
    Component(meta.name, meta.namespace, doc.kind,
              Annotation(meta.annotations, InvokedByKey), Annotation(meta.annotations, CallsKey))
  }

  /** `load_components` of the script: NetworkPolicies, documents without
      metadata and documents without an `architecture.part_of` annotation
      are not components. */
  function ScriptComponent(doc: Doc): (r: Option<Component>)
    ensures r.Some? <==>
      doc.Manifest? && doc.kind != Some("NetworkPolicy") && doc.metadata.Some? && PartOfKey in doc.metadata.value.annotations
    ensures r.Some? ==> r.value.name == doc.metadata.value.name && r.value.kind == doc.kind
  {
    if !doc.Manifest? || doc.kind == Some("NetworkPolicy") || doc.metadata.None? then None
    else if PartOfKey !in doc.metadata.value.annotations then None
    else Some(ComponentOf(doc))
  }

  /** The loop of `arkit8s.py generate_network_policies`: the same, and the
      name must be present and non-empty. */
  function ArkitComponent(doc: Doc): (r: Option<Component>)
    ensures r.Some? <==> ScriptComponent(doc).Some? && doc.metadata.value.name.Some? && doc.metadata.value.name.value != ""
    ensures r.Some? ==> r == ScriptComponent(doc)
  {
    if !doc.Manifest? || doc.kind == Some("NetworkPolicy") || doc.metadata.None? then None
    else
      var meta := doc.metadata.value;
      if meta.name.None? || meta.name.value == "" then None
      else if PartOfKey !in meta.annotations then None
      else Some(ComponentOf(doc))
  }

  /** The components of a sequence of documents, in document order. */
  function Components(docs: seq<Doc>, recognise: Doc -> Option<Component>): seq<Component>
    decreases |docs|
  {
    if docs == [] then []
    else
      var front := Components(docs[..|docs| - 1], recognise);
      var c := recognise(docs[|docs| - 1]);
      if c.Some? then front + [c.value] else front
  }

  /** Each component comes from a document the recogniser accepts. */
  lemma {:induction false} ComponentsFromDocs(docs: seq<Doc>, recognise: Doc -> Option<Component>)
    ensures forall c :: c in Components(docs, recognise) ==> exists d :: d in docs && recognise(d) == Some(c)
    ensures |Components(docs, recognise)| <= |docs|
    decreases |docs|
  {
    if docs != [] {
      var front := docs[..|docs| - 1];
      ComponentsFromDocs(front, recognise);
      forall d | d in front ensures d in docs {
      }
    }
  }

  /** `load_components(arch_dir)`: the loop appending to `comps`. */
  method LoadComponents(docs: seq<Doc>) returns (comps: seq<Component>)
    ensures comps == Components(docs, ScriptComponent)
  {
    comps := [];
    for k := 0 to |docs|
      invariant comps == Components(docs[..k], ScriptComponent)
    {
      assert docs[..k + 1][..k] == docs[..k];
      var c := ScriptComponent(docs[k]);
      if c.Some? {
        comps := comps + [c.value];
      }
    }
    assert docs[..|docs|] == docs;
  }

  // ----- NetworkPolicy synthesis -----

  const PolicyApiVersion := "networking.k8s.io/v1"

  /** A generated NetworkPolicy. `ingressFrom` / `egressTo` are the `app`
      labels of the single `from` / `to` rule; `None` means the key is not
      written at all. */
  datatype Policy = Policy(
    apiVersion: string,
    kind: string,
    name: Option<string>,           // metadata.name
    namespace: Option<string>,      // metadata.namespace
    podSelectorApp: Option<string>, // spec.podSelector.matchLabels.app
    ingressFrom: Option<seq<string>>,
    egressTo: Option<seq<string>>)

  /** `names = {c["name"] for c in comps}`, as far as a string can match it. */
  function Names(comps: seq<Component>): set<string> {
    set c | c in comps && c.name.Some? :: c.name.value
  }

  /** The peers of a list that are known components, in list order. */
  function KnownPeers(peers: seq<string>, names: set<string>): (r: seq<string>)
    ensures forall p :: p in r <==> p in peers && p in names
  {
    Filter(peers, p => p in names)
  }

  /** The policy of one component: it selects the component itself, allows
      traffic from the known components that invoke it and to the known
      components it calls, and writes a direction only when it has peers. */
  function BuildPolicy(c: Component, names: set<string>): (p: Policy)
    ensures p.apiVersion == PolicyApiVersion && p.kind == "NetworkPolicy"
    ensures p.name == c.name && p.podSelectorApp == c.name && p.namespace == c.namespace
    ensures p.ingressFrom.Some? <==> exists src :: src in c.invokedBy && src in names
    ensures p.egressTo.Some? <==> exists dst :: dst in c.calls && dst in names
    ensures p.ingressFrom.Some? ==> p.ingressFrom.value == KnownPeers(c.invokedBy, names)
    ensures p.egressTo.Some? ==> p.egressTo.value == KnownPeers(c.calls, names)
  {
    var ingress := KnownPeers(c.invokedBy, names);
    var egress := KnownPeers(c.calls, names);
    assert ingress != [] ==> ingress[0] in ingress;
    assert egress != [] ==> egress[0] in egress;
    Policy(PolicyApiVersion, "NetworkPolicy", c.name, c.namespace, c.name,
           if ingress == [] then None else Some(ingress),
           if egress == [] then None else Some(egress))
  }

  /** What the output loop prints: a policy, or the `---` between two. */
  datatype Printed = Separator | PolicyDoc(policy: Policy)

  /** The policies with a separator between consecutive ones. */
  function Separated(policies: seq<Policy>): (r: seq<Printed>)
    ensures policies == [] <==> r == []
    decreases |policies|
  {
    if policies == [] then []
    else if |policies| == 1 then [PolicyDoc(policies[0])]
    else Separated(policies[..|policies| - 1]) + [Separator, PolicyDoc(policies[|policies| - 1])]
  }

  /** Policy `k` is printed at position `2k`, a separator at every odd
      position: one policy per component, in order, never a leading `---`. */
  lemma {:induction false} SeparatedLayout(policies: seq<Policy>)
    requires policies != []
    ensures |Separated(policies)| == 2 * |policies| - 1
    ensures forall k :: 0 <= k < |policies| ==> Separated(policies)[2 * k] == PolicyDoc(policies[k])
    ensures forall k :: 0 <= k < |policies| - 1 ==> Separated(policies)[2 * k + 1] == Separator
    decreases |policies|
  {
    if |policies| > 1 {
      var front := policies[..|policies| - 1];
      SeparatedLayout(front);
    }
  }

  /** The policies of a list of components, in order. */
  function PoliciesOf(comps: seq<Component>, names: set<string>): (r: seq<Policy>)
    ensures |r| == |comps| && forall k :: 0 <= k < |r| ==> r[k] == BuildPolicy(comps[k], names)
  {
    seq(|comps|, k requires 0 <= k < |comps| => BuildPolicy(comps[k], names))
  }

  /** Printing one more policy adds it, behind a separator unless it is
      the first. */
  lemma SeparatedSnoc(policies: seq<Policy>, k: nat)
    requires k < |policies|
    ensures Separated(policies[..k + 1]) ==
      if k == 0 then [PolicyDoc(policies[0])] else Separated(policies[..k]) + [Separator, PolicyDoc(policies[k])]
  {
    assert policies[..k + 1][..k] == policies[..k];
  }

  /** The output loop with its `first` flag. */
  method EmitPolicies(comps: seq<Component>) returns (out: seq<Printed>)
    ensures out == Separated(PoliciesOf(comps, Names(comps)))
  {
    var names := Names(comps);
    out := EmitWith(comps, names);
  }

  /** The output loop, for a given set of known names. */
  method EmitWith(comps: seq<Component>, names: set<string>) returns (out: seq<Printed>)
    ensures out == Separated(PoliciesOf(comps, names))
  {
    ghost var policies := PoliciesOf(comps, names);
    out := [];
    var first := true;
    for k := 0 to |comps|
      invariant first <==> k == 0
      invariant out == Separated(policies[..k])
    {
      var policy := BuildPolicy(comps[k], names);
      assert policy == policies[k];
      if !first {
        out := out + [Separator];
      }
      first := false;
      out := out + [PolicyDoc(policy)];
      SeparatedSnoc(policies, k);
    }
    assert policies[..|comps|] == policies;
  }

  /** How the script ends. */
  datatype ScriptOutcome = Exit(message: string) | Printed(output: seq<Printed>)

  const NoArchitectureDir := "No se encontró el directorio 'architecture'"
  const NoManifests := "No se encontraron manifiestos para procesar"

  /** Components with a falsy kind are dropped. */
  function WithKind(comps: seq<Component>): (r: seq<Component>)
    ensures forall c :: c in r <==> c in comps && c.kind.Some? && c.kind.value != ""
  {
    Filter(comps, (c: Component) => c.kind.Some? && c.kind.value != "")
  }

  /** `main()` of `utilities/generate-network-policies.py` over the
      documents of the architecture directory. */
  method ScriptMain(dirExists: bool, docs: seq<Doc>) returns (outcome: ScriptOutcome)
    ensures !dirExists ==> outcome == Exit(NoArchitectureDir)
    ensures dirExists && WithKind(Components(docs, ScriptComponent)) == [] ==> outcome == Exit(NoManifests)
    ensures dirExists && WithKind(Components(docs, ScriptComponent)) != [] ==>
      var comps := WithKind(Components(docs, ScriptComponent));
      outcome == Printed(Separated(PoliciesOf(comps, Names(comps))))
  {
    if !dirExists {
      return Exit(NoArchitectureDir);
    }
    var comps := LoadComponents(docs);
    comps := WithKind(comps);
    if comps == [] {
      return Exit(NoManifests);
    }
    var out := EmitPolicies(comps);
    return Printed(out);
  }

  /** `arkit8s.py generate_network_policies`: the exit status and what it prints. */
  method ArkitGeneratePolicies(docs: seq<Doc>) returns (status: int, out: seq<Printed>)
    ensures var comps := Components(docs, ArkitComponent);
      && (status == 1 <==> comps == [])
      && (status == 0 <==> comps != [])
      && out == Separated(PoliciesOf(comps, Names(comps)))
  {
    var comps: seq<Component> := [];
    for k := 0 to |docs|
      invariant comps == Components(docs[..k], ArkitComponent)
    {
      assert docs[..k + 1][..k] == docs[..k];
      var c := ArkitComponent(docs[k]);
      if c.Some? {
        comps := comps + [c.value];
      }
    }
    assert docs[..|docs|] == docs;
    if comps == [] {
      return 1, [];
    }
    out := EmitPolicies(comps);
    status := 0;
  }

  /** The components of `arkit8s.py` are those of the script that carry a
      non-empty name. */
  lemma {:induction false} ArkitComponentsNamed(docs: seq<Doc>)
    ensures Components(docs, ArkitComponent) == Filter(Components(docs, ScriptComponent), (c: Component) => c.name.Some? && c.name.value != "")
    decreases |docs|
  {
    var named := (c: Component) => c.name.Some? && c.name.value != "";
    if docs != [] {
      var front := docs[..|docs| - 1];
      var d := docs[|docs| - 1];
      ArkitComponentsNamed(front);
      var s := ScriptComponent(d);
      if s.Some? {
        FilterAppend(Components(front, ScriptComponent), [s.value], named);
        assert Filter([s.value], named) == (if named(s.value) then [s.value] else []);
      }
    }
  }

  // ----- validate_metadata -----

  /** The sets a `validate_metadata` record keeps. */
  datatype Links = Links(invokedBy: set<string>, calls: set<string>)

  /** The record of a document, when it is a component: a mapping with a
      non-empty name that is not a NetworkPolicy. */
  function AuditEntry(doc: Doc): Option<(string, Links)> {
    if !doc.Manifest? || doc.metadata.None? then None
    else
      var meta := doc.metadata.value;
      if meta.name.None? || meta.name.value == "" || doc.kind == Some("NetworkPolicy") then None
      else
        var invokedBy := Annotation(meta.annotations, InvokedByKey);
        var calls := Annotation(meta.annotations, CallsKey);
        Some((meta.name.value, Links(set s | s in invokedBy, set s | s in calls)))
  }

  /** `components[name] = record`: a later document with the same name
      replaces the earlier one. */
  function Registry(docs: seq<Doc>): map<string, Links>
    decreases |docs|
  {
    if docs == [] then map[]
    else
      var front := Registry(docs[..|docs| - 1]);
      var e := AuditEntry(docs[|docs| - 1]);
      if e.Some? then front[e.value.0 := e.value.1] else front
  }

  /** The registry holds the last record of every named component. */
  lemma {:induction false} RegistryLastWins(docs: seq<Doc>, k: nat)
    requires k < |docs| && AuditEntry(docs[k]).Some?
    requires forall j :: k < j < |docs| && AuditEntry(docs[j]).Some? ==> AuditEntry(docs[j]).value.0 != AuditEntry(docs[k]).value.0
    ensures var e := AuditEntry(docs[k]).value; e.0 in Registry(docs) && Registry(docs)[e.0] == e.1
    decreases |docs|
  {
    if k < |docs| - 1 {
      var front := docs[..|docs| - 1];
      assert front[k] == docs[k];
      forall j | k < j < |front| && AuditEntry(front[j]).Some?
        ensures AuditEntry(front[j]).value.0 != AuditEntry(front[k]).value.0
      {
        assert front[j] == docs[j];
      }
      RegistryLastWins(front, k);
    }
  }

  method BuildRegistry(docs: seq<Doc>) returns (components: map<string, Links>)
    ensures components == Registry(docs)
  {
    components := map[];
    for k := 0 to |docs|
      invariant components == Registry(docs[..k])
    {
      assert docs[..k + 1][..k] == docs[..k];
      var e := AuditEntry(docs[k]);
      if e.Some? {
        components := components[e.value.0 := e.value.1];
      }
    }
    assert docs[..|docs|] == docs;
  }

  /** Every call targets a known component that lists the caller in its
      `invoked_by`. */
  predicate CallsReciprocated(components: map<string, Links>) {
    forall a :: a in components ==> CallsOfReciprocated(components, a)
  }

  /** Every call of `a` targets a known component that lists `a` in its
      `invoked_by`. */
  predicate CallsOfReciprocated(components: map<string, Links>, a: string)
    requires a in components
  {
    forall b :: b in components[a].calls ==> b in components && a in components[b].invokedBy
  }

  /** Every `invoked_by` entry names a known component that lists the callee
      in its `calls`. */
  predicate InvocationsReciprocated(components: map<string, Links>) {
    forall a :: a in components ==> InvokersOfReciprocated(components, a)
  }

  /** Every `invoked_by` entry of `a` names a known component that lists
      `a` in its `calls`. */
  predicate InvokersOfReciprocated(components: map<string, Links>, a: string)
    requires a in components
  {
    forall b :: b in components[a].invokedBy ==> b in components && a in components[b].calls
  }

  /** The two passes together say that every reference names a known
      component and that `b in calls(a)` exactly when `a in invoked_by(b)`. */
  lemma ReciprocityIsSymmetry(components: map<string, Links>)
    ensures CallsReciprocated(components) && InvocationsReciprocated(components) <==>
      && (forall a, b :: a in components && b in components[a].calls ==> b in components)
      && (forall a, b :: a in components && b in components[a].invokedBy ==> b in components)
      && (forall a, b :: a in components && b in components ==>
            (b in components[a].calls <==> a in components[b].invokedBy))
  {
  }

  /** The inner loop over the calls of one component. */
  method CheckCallsOf(components: map<string, Links>, a: string, status0: int) returns (status: int)
    requires a in components && 0 <= status0 <= 1
    ensures 0 <= status <= 1
    ensures status == 0 <==> status0 == 0 && CallsOfReciprocated(components, a)
  {
    status := status0;
    var todo := components[a].calls;
    while todo != {}
      invariant todo <= components[a].calls && 0 <= status <= 1
      invariant status == 0 <==>
        (status0 == 0 && forall b :: b in components[a].calls && b !in todo ==> b in components && a in components[b].invokedBy)
      decreases |todo|
    {
      var b :| b in todo;
      if b !in components {
        status := 1;
      } else if a !in components[b].invokedBy {
        status := 1;
      }
      todo := todo - {b};
    }
  }

  /** The inner loop over the `invoked_by` entries of one component. */
  method CheckInvokersOf(components: map<string, Links>, a: string, status0: int) returns (status: int)
    requires a in components && 0 <= status0 <= 1
    ensures 0 <= status <= 1
    ensures status == 0 <==> status0 == 0 && InvokersOfReciprocated(components, a)
  {
    status := status0;
    var todo := components[a].invokedBy;
    while todo != {}
      invariant todo <= components[a].invokedBy && 0 <= status <= 1
      invariant status == 0 <==>
        (status0 == 0 && forall b :: b in components[a].invokedBy && b !in todo ==> b in components && a in components[b].calls)
      decreases |todo|
    {
      var b :| b in todo;
      if b !in components {
        status := 1;
      } else if a !in components[b].calls {
        status := 1;
      }
      todo := todo - {b};
    }
  }

  /** The first pass, over the calls of every component. */
  method CallsPass(components: map<string, Links>) returns (status: int)
    ensures 0 <= status <= 1
    ensures status == 0 <==> CallsReciprocated(components)
  {
    status := 0;
    var todo := components.Keys;
    while todo != {}
      invariant todo <= components.Keys && 0 <= status <= 1
      invariant status == 0 <==> forall a :: a in components && a !in todo ==> CallsOfReciprocated(components, a)
      decreases |todo|
    {
      var a :| a in todo;
      status := CheckCallsOf(components, a, status);
      todo := todo - {a};
    }
  }

  /** The second pass, over the `invoked_by` entries of every component. */
  method InvokersPass(components: map<string, Links>, status0: int) returns (status: int)
    requires 0 <= status0 <= 1
    ensures 0 <= status <= 1
    ensures status == 0 <==> status0 == 0 && InvocationsReciprocated(components)
  {
    status := status0;
    var todo := components.Keys;
    while todo != {}
      invariant todo <= components.Keys && 0 <= status <= 1
      invariant status == 0 <==>
        status0 == 0 && forall a :: a in components && a !in todo ==> InvokersOfReciprocated(components, a)
      decreases |todo|
    {
      var a :| a in todo;
      status := CheckInvokersOf(components, a, status);
      todo := todo - {a};
    }
  }

  /** The two reciprocity passes of `validate_metadata`: the status is 1
      exactly when some reference is unknown or not returned. */
  method ReciprocityStatus(components: map<string, Links>) returns (status: int)
    ensures 0 <= status <= 1
    ensures status == 0 <==> CallsReciprocated(components) && InvocationsReciprocated(components)
  {
    status := CallsPass(components);
    status := InvokersPass(components, status);
  }
}
