/** What federation does not preserve, and what the policy check does not see: concrete operations outside the
    conditions of the main results. */
module Limits {
  import opened Wrappers
  import opened Json
  import Paths
  import opened Fields
  import opened Arguments
  import opened Operation
  import opened Plan
  import opened Printing
  import opened Requests
  import Fidelity
  import Exactness
  import Readability
  import opened Meaning
  import opened Merge
  import opened Reference
  import Federation
  import opened Selection
  import opened Strings
  import Policy
  import Gate
  import Sequences

  const TEXT: TypeRef := Named("String", false)

  /** `p(nic: "x")`, a leaf that carries the owner's identifier. */
  const OWNER: Field := Field("p", "p", ["p"], ["p"], map["nic" := Text("x")],
                              FieldDef(TEXT, [ArgDef("nic", TEXT, None)]), Some(SourceInfo("s", "p")), [])

  const TYPENAME: Field := Field("t", "__typename", ["l", "t"], ["l", "__typename"], map[],
                                 FieldDef(Named("String", true), []), None, [])

  /** `l { t: __typename }`, an object list with nothing sourced below it. */
  const ITEMS: Field := Field("l", "l", ["l"], ["l"], map[], FieldDef(ListOf(Named("T", false), false), []),
                              Some(SourceInfo("s", "l")), [TYPENAME])

  /** `l(id: "7") { t: __typename }`, and the mapping of its argument to the provider's list. */
  const LISTED: Field := ITEMS.(arguments := map["id" := Text("7")],
                                definition := FieldDef(ListOf(Named("T", false), false), [ArgDef("id", TEXT, None)]))

  const MAPPING: ArgMapping := ArgMapping("s", "l-id", "l", "id", None)

  const ARGUMENT: ProviderArgument := ProviderArgument("l", "id", Named("String", true), Text("7"))

  lemma SplitPlain(s: string)
    requires Without(s, '.')
    ensures Paths.Split(s) == [s]
  {
    SplitAtom(s, '.');
  }

  // Planning the two fields

  lemma EntriesTwo(bindings: seq<Binding>, f: Field, g: Field, e: Entry, h: Entry)
    requires EntriesOf(bindings, f) == Ok([e]) && EntriesOf(bindings, g) == Ok([h])
    ensures Entries(bindings, [f, g]) == Ok([e, h])
  {
    EntriesOne(bindings, g);
    assert [f, g][0] == f && [f, g][1..] == [g];
    assert [e] + [h] == [e, h];
  }

  lemma EntriesOne(bindings: seq<Binding>, f: Field)
    ensures Entries(bindings, [f]) == EntriesOf(bindings, f)
  {
    assert [f][1..] == [];
    assert Entries(bindings, []) == Ok([]);
    var r := EntriesOf(bindings, f);
    assert r.Ok? ==> r.value + [] == r.value;
  }

  lemma ScopedPathsOne(f: Field, declared: string, requested: string)
    ensures ScopedPaths([f], declared, requested) == ScopedPath(f, declared, requested)
  {
    assert [f][1..] == [];
    assert ScopedPaths([], declared, requested) == Ok([]);
    var r := ScopedPath(f, declared, requested);
    assert r.Ok? ==> r.value + [] == r.value;
  }

  lemma ListEntry(bindings: seq<Binding>, f: Field, args: seq<ProviderArgument>)
    requires f == ITEMS || f == LISTED
    requires ArgumentsFor(bindings, f) == Ok(args)
    ensures EntriesOf(bindings, f) == Ok([Entry(f, args, [])])
  {
    ScopedPathsOne(TYPENAME, "l", "l");
    assert f.selections == [TYPENAME] && ScopedPath(TYPENAME, "l", "l") == Ok([]);
  }

  /** The first field gets a provider operation of its own, that requests it. */
  lemma FirstAssigned(marshal: Json -> string)
    ensures Assign(marshal, EMPTY_PLAN, Entry(OWNER, [], ["p"])) ==
            PlanView([FetchView("s", "s", [], ["p"], [OWNER])], map[["p"] := "s"])
  {
    var e := Entry(OWNER, [], ["p"]);
    assert EntryKey(marshal, e) == "s";
    var created := FetchView("s", "s", [], [], []);
    assert Ensured([], "s", "s", []) == [created];
    assert ["p"][1..] == [];
    assert AddAll([], ["p"]) == AddAll(["p"], []) by {
      assert AddOnce([], "p") == ["p"];
    }
    var served := created.(consumers := [OWNER], fields := ["p"]);
    assert [created][0 := served] == [served] && [] + [OWNER] == [OWNER];
  }

  lemma AssignTwo(marshal: Json -> string, e: Entry)
    requires e.field.source.Some?
    ensures AssignAll(marshal, EMPTY_PLAN, [Entry(OWNER, [], ["p"]), e]) ==
            Assign(marshal, PlanView([FetchView("s", "s", [], ["p"], [OWNER])], map[["p"] := "s"]), e)
  {
    FirstAssigned(marshal);
    var both, one := [Entry(OWNER, [], ["p"]), e], Assign(marshal, EMPTY_PLAN, Entry(OWNER, [], ["p"]));
    assert both[0] == Entry(OWNER, [], ["p"]) && both[1..] == [e] && [e][1..] == [];
    assert AssignAll(marshal, one, [e]) == AssignAll(marshal, Assign(marshal, one, e), []);
    assert AssignAll(marshal, EMPTY_PLAN, both) == AssignAll(marshal, one, [e]);
  }

  // A list that nothing is asked of

  /** One operation serves both fields, and requests nothing of the list. */
  lemma ItemsPlan(marshal: Json -> string)
    ensures PlanFor(marshal, [], [OWNER, ITEMS]) ==
            Ok(PlanView([ITEMS_FETCH], map[["p"] := "s", ["l"] := "s"]))
  {
    var e := Entry(ITEMS, [], []);
    assert ArgumentsFor([], OWNER) == Ok([]) && ArgumentsFor([], ITEMS) == Ok([]);
    ListEntry([], ITEMS, []);
    EntriesTwo([], OWNER, ITEMS, Entry(OWNER, [], ["p"]), e);
    AssignTwo(marshal, e);
    var before := FetchView("s", "s", [], ["p"], [OWNER]);
    assert EntryKey(marshal, e) == "s" && IndexOf([before], "s") == 0;
    var served := before.(consumers := [OWNER] + [ITEMS], fields := AddAll(["p"], []));
    assert [before][0 := served] == [served] && [OWNER] + [ITEMS] == [OWNER, ITEMS];
  }

  function Constant(data: map<string, Json>): World {
    (schemaId, args) => Some(data)
  }

  const ITEMS_FETCH: FetchView := FetchView("s", "s", [], ["p"], [OWNER, ITEMS])

  const ITEMS_DATA: map<string, Json> := map["p" := Text("v"), "l" := List([Object(map[])])]

  const ITEMS_RESULTS: map<string, FetchResult> := map["s" := Answered(map["p" := Text("v")], [])]

  /** An object list with nothing asked for at or below it is not sent for: a provider that answers exactly what was
      selected shows nothing of it, and the consumer sees null where the provider holds a list. */
  lemma TypenameOnlyListIsLost(marshal: Json -> string)
    ensures OwnerValues([OWNER, ITEMS], "nic") == {"x"}
    ensures var plan := PlanFor(marshal, BindArguments([], [OWNER, ITEMS]), [OWNER, ITEMS]);
            && plan.Ok? && plan.value.fetches == [ITEMS_FETCH]
            && !Fidelity.ShowsList(ITEMS_FETCH.fields, ITEMS_FETCH.args, "l")
            && AllAnswered(plan.value, Constant(ITEMS_DATA), ITEMS_RESULTS)
            && ITEMS_RESULTS["s"] == Cut(ITEMS_FETCH, Answered(ITEMS_DATA, []))
            && Merged(Env(plan.value, ITEMS_RESULTS), [OWNER, ITEMS]).data == Some(map["p" := Text("v"), "l" := Null])
            && ExecuteSet(Constant(ITEMS_DATA), Federation.Bound([]), [OWNER, ITEMS], "Query", Top) ==
               Some(map["p" := Text("v"), "l" := List([Object(map["t" := Text("T")])])])
  {
    OwnerOfItems(ITEMS);
    ItemsPlan(marshal);
    ItemsNotShown();
    ItemsAnswered();
    ItemsMerged(Env(PlanView([ITEMS_FETCH], map[["p"] := "s", ["l"] := "s"]), ITEMS_RESULTS));
    ItemsExecuted(Constant(ITEMS_DATA));
  }

  /** The list's operation is one for which the conditions of the main result are exact, and it does not meet them. */
  lemma ItemsAreMisread(marshal: Json -> string)
    requires Faithful(marshal)
    ensures WellPlanned(marshal, [], [OWNER, ITEMS]) && Exactness.Tolerant([OWNER, ITEMS])
    ensures !Plannable(marshal, [], [OWNER, ITEMS]) && !Exactness.PreservesMeaning(marshal, [], [OWNER, ITEMS])
  {
    ItemsPlan(marshal);
    ItemsWellShaped();
    ItemsEntries();
    ItemsNotCovered(marshal, [OWNER, ITEMS]);
    Exactness.PreservesIffPlannable(marshal, [], [OWNER, ITEMS]);
  }

  /** `u`, a leaf that is never null and that nothing can be read for. */
  const UNREAD: Field := Field("u", "u", ["u"], ["u"], map[], FieldDef(Named("String", true), []), None, [])

  /** Beside such a leaf no misreading shows: the query has no data, however it is executed. */
  lemma NullHidesMisreading(marshal: Json -> string)
    requires Faithful(marshal)
    ensures WellPlanned(marshal, [], [UNREAD, OWNER, ITEMS]) && !Exactness.Tolerant([UNREAD, OWNER, ITEMS])
    ensures !Plannable(marshal, [], [UNREAD, OWNER, ITEMS])
    ensures Exactness.PreservesMeaning(marshal, [], [UNREAD, OWNER, ITEMS])
  {
    var fields := [UNREAD, OWNER, ITEMS];
    ItemsPlan(marshal);
    ItemsWellShaped();
    ItemsEntries();
    UnreadEntries();
    ItemsNotCovered(marshal, fields);
    assert UNREAD in fields;
    forall world: World, results | AllAnswered(PlanFor(marshal, [], fields).value, world, results)
      ensures Merged(Env(PlanFor(marshal, [], fields).value, results), fields).data ==
              ExecuteSet(world, Federation.Bound([]), fields, "Query", Top)
    {
      UnreadHasNoData(Env(PlanFor(marshal, [], fields).value, results), world);
    }
  }

  lemma ItemsWellShaped()
    ensures WellShaped([OWNER, ITEMS], []) && WellShaped([UNREAD, OWNER, ITEMS], [])
  {
    assert [] + ["p"] == ["p"] && [] + ["l"] == ["l"] && [] + ["u"] == ["u"] && ["l"] + ["t"] == ["l", "t"];
    assert WellShaped([], ["l", "t"]) && WellShaped([], ["p"]) && WellShaped([], ["u"]);
    assert WellShaped([TYPENAME], ["l"]);
  }

  lemma ItemsEntries()
    ensures Entries([], [OWNER, ITEMS]) == Ok([Entry(OWNER, [], ["p"]), Entry(ITEMS, [], [])])
  {
    ListEntry([], ITEMS, []);
    EntriesTwo([], OWNER, ITEMS, Entry(OWNER, [], ["p"]), Entry(ITEMS, [], []));
  }

  lemma UnreadEntries()
    ensures Entries([], [UNREAD, OWNER, ITEMS]) == Entries([], [OWNER, ITEMS])
  {
    var fields := [UNREAD, OWNER, ITEMS];
    assert fields[0] == UNREAD && fields[1..] == [OWNER, ITEMS];
    assert EntriesOf([], UNREAD) == Ok([]);
    var r := Entries([], [OWNER, ITEMS]);
    assert r.Ok? ==> [] + r.value == r.value;
  }

  lemma ItemsNotCovered(marshal: Json -> string, fields: seq<Field>)
    requires Entries([], fields) == Ok([Entry(OWNER, [], ["p"]), Entry(ITEMS, [], [])])
    requires PlanFor(marshal, [], fields) == Ok(PlanView([ITEMS_FETCH], map[["p"] := "s", ["l"] := "s"]))
    ensures CleanEntries([], fields) && !Plannable(marshal, [], fields)
  {
    var e := Entry(ITEMS, [], []);
    var plan := PlanFor(marshal, [], fields).value;
    assert e in Entries([], fields).value;
    assert Serves(plan, e) && ServedBy(plan, e) == ITEMS_FETCH;
    SplitPlain("p");
    SplitPlain("l");
    forall x | x in Asked(["p"], []) ensures x == "p" {
    }
    assert !Readability.FieldCovered(Asked(ITEMS_FETCH.fields, ITEMS_FETCH.args), ITEMS);
  }

  lemma UnreadHasNoData(env: Env, world: World)
    ensures Merged(env, [UNREAD, OWNER, ITEMS]).data == None
    ensures ExecuteSet(world, Federation.Bound([]), [UNREAD, OWNER, ITEMS], "Query", Top) == None
  {
    var fields := [UNREAD, OWNER, ITEMS];
    assert fields[..2] == [UNREAD, OWNER] && [UNREAD, OWNER][..1] == [UNREAD];
    assert ExecuteField(world, Federation.Bound([]), UNREAD, "Query", Top) == None;
    assert ExecuteSet(world, Federation.Bound([]), [UNREAD], "Query", Top) == None;
    assert ExecuteSet(world, Federation.Bound([]), [UNREAD, OWNER], "Query", Top) == None;
    assert MergeValue(env, UNREAD, "Query", Top, []).failed;
  }

  lemma ItemsNotShown()
    ensures !Fidelity.ShowsList(ITEMS_FETCH.fields, ITEMS_FETCH.args, "l")
  {
    SplitPlain("p");
    SplitPlain("l");
    Fidelity.ListShownIffRequested(["p"], [], "l");
    forall x | x in Asked(["p"], []) ensures x == "p" {
    }
  }

  lemma ItemsAnswered()
    ensures ITEMS_RESULTS["s"] == Cut(ITEMS_FETCH, Answered(ITEMS_DATA, []))
    ensures Answers(ITEMS_FETCH, Constant(ITEMS_DATA), ITEMS_RESULTS["s"])
  {
    OneLeaf("p", ITEMS_DATA);
    assert Federation.SentTree(ITEMS_FETCH) == Tree(["p"]);
    ProjectRootCovers(Tree(["p"]), ITEMS_DATA);
  }

  lemma OwnerOfItems(f: Field)
    requires f == ITEMS || f == LISTED
    ensures OwnerValues([OWNER, f], "nic") == {"x"}
  {
    WalkValues([OWNER, f], "nic");
    WalkValues([f], "nic");
    WalkValues([TYPENAME], "nic");
    assert [OWNER, f][1..] == [f] && [f][1..] == [] && [TYPENAME][1..] == [];
  }

  /** An operation that requests one top-level leaf is answered with that leaf. */
  lemma OneLeaf(p: string, data: map<string, Json>)
    requires Without(p, '.') && p in data
    ensures Distinct(Tree([p])) && ProjectRoot(Tree([p]), data) == map[p := data[p]]
  {
    TreeDistinct([p]);
    OneLeafTree(p);
    ProjectLeaf(Tree([p]), Node(p, [], []), data);
  }

  lemma OneLeafTree(p: string)
    requires Without(p, '.')
    ensures Tree([p]) == Node("", [], [Node(p, [], [])])
  {
    SplitPlain(p);
    assert [p][..0] == [] && [p][1..] == [];
    assert Grow(Node(p, [], []), [], []) == Node(p, [], []);
    assert Tree([p]) == Grow(EMPTY_TREE, [p], []);
  }

  lemma ProjectLeaf(root: Node, leaf: Node, data: map<string, Json>)
    requires root.children == [leaf] && leaf.children == [] && leaf.name in data
    ensures ProjectRoot(root, data) == map[leaf.name := data[leaf.name]]
  {
    assert [leaf][..0] == [] && [leaf][0] == leaf && leaf in [leaf];
    assert ProjectMembers(root, [], data) == map[];
    assert ProjectMembers(root, [leaf], data) == map[][leaf.name := Project(leaf, data[leaf.name])];
  }

  lemma ItemsMerged(env: Env)
    requires ["p"] in env.plan.sources && env.plan.sources[["p"]] in env.results
    requires ["l"] in env.plan.sources && env.plan.sources[["l"]] in env.results
    requires env.results[env.plan.sources[["p"]]] == Answered(map["p" := Text("v")], [])
    requires env.results[env.plan.sources[["l"]]] == Answered(map["p" := Text("v")], [])
    ensures Merged(env, [OWNER, ITEMS]).data == Some(map["p" := Text("v"), "l" := Null])
  {
    SplitPlain("p");
    SplitPlain("l");
    var data := map["p" := Text("v")];
    assert ["p"][1..] == [] && ["l"][1..] == [];
    assert ValueAt(Object(data), ["p"]) == Text("v") && ValueAt(Object(data), ["l"]) == Null;
    assert [OWNER, ITEMS][1..] == [ITEMS] && [ITEMS][1..] == [];
    assert MergeValue(env, OWNER, "Query", Top, []) == ValueOut(Text("v"), false, []);
    assert MergeValue(env, ITEMS, "Query", Top, []) == ValueOut(Null, false, []);
    assert MergeObject(env, [], "Query", Top, []) == ObjectOut(map[], false, []);
    assert MergeObject(env, [ITEMS], "Query", Top, []).members == map["l" := Null] + map[];
    var o := MergeObject(env, [OWNER, ITEMS], "Query", Top, []);
    assert o.members == map["p" := Text("v")] + map["l" := Null] && !o.failed;
    assert o.members == map["p" := Text("v"), "l" := Null];
  }

  lemma ItemsExecuted(world: World)
    requires world("s", []) == Some(map["p" := Text("v"), "l" := List([Object(map[])])])
    ensures ExecuteSet(world, Federation.Bound([]), [OWNER, ITEMS], "Query", Top) ==
            Some(map["p" := Text("v"), "l" := List([Object(map["t" := Text("T")])])])
  {
    SplitPlain("p");
    SplitPlain("l");
    var data := map["p" := Text("v"), "l" := List([Object(map[])])];
    assert ["p"][1..] == [] && ["l"][1..] == [];
    assert ArgumentsFor([], OWNER) == Ok([]) && ArgumentsFor([], ITEMS) == Ok([]);
    assert Read(world, Federation.Bound([]), OWNER, Top) == Text("v");
    assert Read(world, Federation.Bound([]), ITEMS, Top) == List([Object(map[])]);
    ItemExecuted(world);
    Federation.OneItem(world, [], ITEMS, Top, Object(map[]), Object(map["t" := Text("T")]));
    assert [OWNER, ITEMS][..1] == [OWNER] && [OWNER][..0] == [];
    assert ExecuteSet(world, Federation.Bound([]), [], "Query", Top) == Some(map[]);
    assert ExecuteField(world, Federation.Bound([]), OWNER, "Query", Top) == Some(Text("v"));
    assert ExecuteSet(world, Federation.Bound([]), [OWNER], "Query", Top) == Some(map["p" := Text("v")]);
  }

  /** An empty object is completed to its type name. */
  lemma ItemExecuted(world: World)
    ensures CompleteItem(world, Federation.Bound([]), ITEMS, Object(map[])) == Some(Object(map["t" := Text("T")]))
  {
    var scope := Within(Object(map[]), "l");
    assert ITEMS.selections == [TYPENAME] && [TYPENAME][..0] == [];
    assert ExecuteSet(world, Federation.Bound([]), [], "T", scope) == Some(map[]);
    assert ExecuteField(world, Federation.Bound([]), TYPENAME, "T", scope) == Some(Text("T"));
    assert ExecuteSet(world, Federation.Bound([]), [TYPENAME], "T", scope) == Some(map["t" := Text("T")]);
  }

  // A leaf that nobody checks

  const BINDING: Binding := Binding(MAPPING, LISTED, Text("7"))

  lemma ListedBinding()
    ensures BindArguments([Some(MAPPING)], [OWNER, LISTED]) == [BINDING]
  {
    MappingParts();
    assert [OWNER, LISTED][1..] == [LISTED] && [LISTED][1..] == [] && [TYPENAME][1..] == [];
    assert Walk([TYPENAME]) == [TYPENAME];
    assert Walk([OWNER, LISTED]) == [OWNER, LISTED, TYPENAME];
    assert [OWNER, LISTED, TYPENAME][1..] == [LISTED, TYPENAME] && [LISTED, TYPENAME][1..] == [TYPENAME];
    assert BindOne(MAPPING, [TYPENAME]) == [];
    assert BindOne(MAPPING, [LISTED, TYPENAME]) == [BINDING];
    assert [Some(MAPPING)][1..] == [];
  }

  lemma MappingParts()
    ensures SourceFieldPath(MAPPING) == ["l"] && SourceArgName(MAPPING) == "id"
  {
    SplitConcat("l", "id", '-');
    SplitAtom("l", '-');
    SplitAtom("id", '-');
    assert "l" + ['-'] + "id" == "l-id";
  }

  lemma ListedArguments()
    ensures ArgumentsFor([BINDING], OWNER) == Ok([]) && ArgumentsFor([BINDING], LISTED) == Ok([ARGUMENT])
  {
    MappingParts();
    assert [BINDING][1..] == [];
    assert !Applies(BINDING, OWNER) && Applies(BINDING, LISTED);
    assert Select([], OWNER, {}) == Ok([]) && Select([], LISTED, {("l", "id")}) == Ok([]);
    assert [ARGUMENT] + [] == [ARGUMENT];
    assert Select([BINDING], LISTED, {}) == Ok([ARGUMENT]);
    assert [ARGUMENT][1..] == [];
    assert Sort([ARGUMENT]) == [ARGUMENT];
  }

  /** The list's argument gives it a provider operation of its own, that requests nothing. */
  lemma ListedPlan(marshal: Json -> string)
    ensures PlanFor(marshal, [BINDING], [OWNER, LISTED]).Ok?
    ensures PlanFor(marshal, [BINDING], [OWNER, LISTED]).value.fetches ==
            [FetchView("s", "s", [], ["p"], [OWNER]),
             FetchView("s", Key(marshal, "s", [ARGUMENT]), [ARGUMENT], [], [LISTED])]
  {
    var e, key := Entry(LISTED, [ARGUMENT], []), Key(marshal, "s", [ARGUMENT]);
    ListedArguments();
    ListEntry([BINDING], LISTED, [ARGUMENT]);
    EntriesTwo([BINDING], OWNER, LISTED, Entry(OWNER, [], ["p"]), e);
    AssignTwo(marshal, e);
    assert |key| > 1;
    AssignNew(marshal, PlanView([FetchView("s", "s", [], ["p"], [OWNER])], map[["p"] := "s"]), e);
  }

  /** A field with a new key gets a provider operation of its own. */
  lemma AssignNew(marshal: Json -> string, plan: PlanView, e: Entry)
    requires e.field.source.Some? && IndexOf(plan.fetches, EntryKey(marshal, e)) == |plan.fetches|
    ensures Assign(marshal, plan, e).fetches ==
            plan.fetches + [FetchView(e.field.source.value.schemaId, EntryKey(marshal, e), e.args, AddAll([], e.paths),
                                      [e.field])]
  {
    assert [] + [e.field] == [e.field];
  }

  const ONLY_P: Policy.Engine :=
    (input: Policy.Input) => if input.field.fieldName == "p" then Policy.Allow else Policy.Deny

  /** A policy table with a row for each of the two provider fields, of which the policies allow only the first. */
  function TwoRows(p: Policy.PolicyRow, l: Policy.PolicyRow): Gate.Pdp {
    Gate.Pdp([p, l], ONLY_P, i => 0, Gate.Answering)
  }

  /** An argument attached to a list that nothing else is requested of makes it a leaf of the printed operation: the
      list is sent for without a selection, though the policy check was never asked about it and the policies deny it.
      A provider that validates its queries refuses such a leaf of object type; one that does not sends the whole
      list. */
  lemma ArgumentOnlyListIsUnchecked(marshal: Json -> string, p: Policy.PolicyRow, l: Policy.PolicyRow, app: string)
    requires Policy.IsRowOf(p, RequiredField("s", "p")) && Policy.IsRowOf(l, RequiredField("s", "l")) && app != ""
    ensures OwnerValues([OWNER, LISTED], "nic") == {"x"}
    ensures var plan := PlanFor(marshal, BindArguments([Some(MAPPING)], [OWNER, LISTED]), [OWNER, LISTED]);
            var pdp := TwoRows(p, l);
            && plan.Ok? && |plan.value.fetches| == 2
            && Gate.Cleared(plan.value, app, "x", Some(pdp), None, map[], true)
            && PrintedLeaf(plan.value.fetches[1].fields, plan.value.fetches[1].args, ["l"])
            && plan.value.fetches[1].schemaId == "s"
            && RequiredFields(plan.value) == [RequiredField("s", "p")]
            && pdp.engine(Policy.Evaluated(l, app, 0)) == Policy.Deny
  {
    OwnerOfItems(LISTED);
    ListedBinding();
    ListedPlan(marshal);
    var plan := PlanFor(marshal, [BINDING], [OWNER, LISTED]).value;
    SplitPlain("l");
    LeavesRequestedIffLead([], [ARGUMENT]);
    PrintedSelectsExactly([], [ARGUMENT]);
    DeepestIsLeaf([], [ARGUMENT], ["l"], "l");
    OnlyPRequired(plan);
    OnlyPDecided(p, l, app);
  }

  lemma OnlyPRequired(plan: PlanView)
    requires |plan.fetches| == 2 && plan.fetches[0].schemaId == "s"
    requires plan.fetches[0].fields == ["p"] && plan.fetches[1].fields == []
    ensures RequiredFields(plan) == [RequiredField("s", "p")]
  {
    var fetches, field := plan.fetches, RequiredField("s", "p");
    assert fetches[..1] == [fetches[0]] && fetches[..1][..0] == [];
    assert FieldsOf(fetches[0]) == [field] && FieldsOf(fetches[1]) == [];
    assert AllFields(fetches[..1][..0]) == [];
    assert AllFields(fetches[..1]) == [] + [field];
    assert AllFields(fetches) == [field] + [];
    Sequences.DedupMembers([field]);
    assert Sequences.Dedup([field]) == [field];
  }

  lemma OnlyPDecided(p: Policy.PolicyRow, l: Policy.PolicyRow, app: string)
    requires Policy.IsRowOf(p, RequiredField("s", "p")) && Policy.IsRowOf(l, RequiredField("s", "l")) && app != ""
    ensures Gate.PolicyAllows(TwoRows(p, l), app, [RequiredField("s", "p")])
    ensures Gate.NeedingConsent(TwoRows(p, l), app, [RequiredField("s", "p")]) == []
  {
    var required, pdp := [RequiredField("s", "p")], TwoRows(p, l);
    assert required[0] in required;
    assert [p, l][..1] == [p];
    assert Policy.RowKey(l)[2] != Policy.LookupKey("s", "p")[2];
    assert Policy.Lookup([p], Policy.SchemasOf(required), Policy.LookupKey("s", "p")) == Some(p);
    assert Policy.Lookup([p, l], Policy.SchemasOf(required), Policy.LookupKey("s", "p")) == Some(p);
    assert Policy.DecidedAs(pdp.rows, pdp.engine, app, required, pdp.clock, Policy.Allow, 0);
    Policy.NoneListed(pdp.rows, pdp.engine, app, required, pdp.clock, Policy.ConsentRequired, 1);
  }
}
