/** The errors in provider answers, as the consumer sees them. */
module Reports {
  import opened Wrappers
  import opened Json
  import Paths
  import opened Fields
  import Plan
  import opened Merge

  // What a provider's error says about its place

  /** The error is an object whose path is a list. */
  predicate HasPath(raw: Json) {
    raw.Object? && "path" in raw.members && raw.members["path"].List?
  }

  /** The path begins with just these field names: then it ends, or goes on with something that is no name. */
  predicate BeginsWith(raw: Json, names: seq<string>) {
    HasPath(raw) &&
    var segments := raw.members["path"].items;
    && |names| <= |segments|
    && (forall i | 0 <= i < |names| :: segments[i] == Text(names[i]))
    && (|names| < |segments| ==> !segments[|names|].Text?)
  }

  /** The provider field that serves `f` lies on the way to the named field, or below it. */
  predicate Related(f: Field, names: seq<string>) {
    f.source.Some? &&
    var provider := Paths.Split(f.source.value.providerField);
    provider <= names || names <= provider
  }

  predicate FirstRelated(consumers: seq<Field>, names: seq<string>, k: nat) {
    && k < |consumers| && Related(consumers[k], names)
    && forall j | 0 <= j < k :: !Related(consumers[j], names)
  }

  /** `path` is the response path of the field. */
  predicate IsPathOf(path: seq<Segment>, f: Field) {
    |path| == |f.path| && forall j | 0 <= j < |path| :: path[j] == Member(f.path[j])
  }

  /** The provider's error is reported at the first consumer field related to where it says it occurred, and without a
      path if there is none or the error does not say. */
  ghost predicate PlacedRight(consumers: seq<Field>, raw: Json, e: Error) {
    && e.code == "PROVIDER_ERROR"
    && (!HasPath(raw) ==> e.path == [])
    && (forall names | BeginsWith(raw, names) ::
          && (names == [] || (forall f | f in consumers :: !Related(f, names)) ==> e.path == [])
          && (forall k: nat | names != [] && FirstRelated(consumers, names, k) :: IsPathOf(e.path, consumers[k])))
  }

  lemma {:induction false} LeadingBegin(segments: seq<Json>)
    ensures var names := LeadingNames(segments);
            && |names| <= |segments|
            && (forall i | 0 <= i < |names| :: segments[i] == Text(names[i]))
            && (|names| < |segments| ==> !segments[|names|].Text?)
  {
    if segments != [] && segments[0].Text? {
      LeadingBegin(segments[1..]);
      assert forall i | 0 < i < |segments| :: segments[i] == segments[1..][i - 1];
    }
  }

  /** An error's path begins with one list of names. */
  lemma NamesOfError(raw: Json)
    ensures HasPath(raw) ==> BeginsWith(raw, ProviderErrorPath(raw))
    ensures !HasPath(raw) ==> ProviderErrorPath(raw) == []
    ensures forall names | BeginsWith(raw, names) :: names == ProviderErrorPath(raw)
  {
    if HasPath(raw) {
      var segments := raw.members["path"].items;
      LeadingBegin(segments);
      forall names | BeginsWith(raw, names) ensures names == ProviderErrorPath(raw) {
        assert |names| == |LeadingNames(segments)|;
      }
    }
  }

  lemma {:induction false} PlaceIsFirst(consumers: seq<Field>, names: seq<string>)
    ensures names == [] || (forall f | f in consumers :: !Related(f, names)) ==> Place(consumers, names) == []
    ensures forall k: nat | names != [] && FirstRelated(consumers, names, k) ::
              Place(consumers, names) == Keys(consumers[k].path)
  {
    if consumers != [] {
      var first, rest := consumers[0], consumers[1..];
      PlaceIsFirst(rest, names);
      assert first in consumers && forall f | f in rest :: f in consumers;
      forall k: nat | names != [] && FirstRelated(consumers, names, k)
        ensures Place(consumers, names) == Keys(consumers[k].path)
      {
        if k > 0 {
          assert rest[k - 1] == consumers[k];
          assert forall j | 0 <= j < k - 1 :: rest[j] == consumers[j + 1];
          assert FirstRelated(rest, names, k - 1);
        }
      }
    }
  }

  /** Every error of an answer is passed on, once, in order and in its right place. */
  lemma {:induction false} PassedOn(consumers: seq<Field>, reported: seq<Json>)
    ensures |PassOn(consumers, reported)| == |reported|
    ensures forall i | 0 <= i < |reported| :: PlacedRight(consumers, reported[i], PassOn(consumers, reported)[i])
  {
    if reported != [] {
      var names := ProviderErrorPath(reported[0]);
      NamesOfError(reported[0]);
      PlaceIsFirst(consumers, names);
      PassedOn(consumers, reported[1..]);
      forall i | 0 < i < |reported|
        ensures PlacedRight(consumers, reported[i], PassOn(consumers, reported)[i])
      {
        assert reported[i] == reported[1..][i - 1];
      }
    }
  }

  // All errors of all answers

  /** The errors in the answer to an operation; a failed operation has none. */
  function ErrorsIn(env: Env, f: Plan.FetchView): seq<Json> {
    if f.key in env.results && env.results[f.key].Answered? then env.results[f.key].errors else []
  }

  /** How many errors the answers to the first `k` operations hold. */
  function ErrorsBefore(env: Env, fetches: seq<Plan.FetchView>, k: nat): nat
    requires k <= |fetches|
  {
    if k == 0 then 0 else ErrorsBefore(env, fetches, k - 1) + |ErrorsIn(env, fetches[k - 1])|
  }

  /** The `i`-th error in the answer to the `k`-th operation is reported in its right place. The errors of the answers
      follow each other from position `own` on. */
  ghost predicate Reported(env: Env, own: nat, errors: seq<Error>, k: nat, i: nat)
    requires k < |env.plan.fetches| && i < |ErrorsIn(env, env.plan.fetches[k])|
  {
    var f, at := env.plan.fetches[k], own + ErrorsBefore(env, env.plan.fetches, k) + i;
    at < |errors| && PlacedRight(f.consumers, ErrorsIn(env, f)[i], errors[at])
  }

  /** From position `own` on, `errors` are the errors of all answers, in plan order, each in its right place, and
      nothing else. */
  ghost predicate AllPassedOn(env: Env, own: nat, errors: seq<Error>) {
    var fetches := env.plan.fetches;
    && |errors| == own + ErrorsBefore(env, fetches, |fetches|)
    && forall k: nat, i: nat | k < |fetches| && i < |ErrorsIn(env, fetches[k])| :: Reported(env, own, errors, k, i)
  }

  lemma {:induction false} FetchErrors(env: Env, fetches: seq<Plan.FetchView>)
    ensures |ProviderErrors(env, fetches)| == ErrorsBefore(env, fetches, |fetches|)
  {
    if fetches != [] {
      FetchErrors(env, fetches[1..]);
      PassedOn(fetches[0].consumers, ErrorsIn(env, fetches[0]));
      BeforeRest(env, fetches, |fetches|);
    }
  }

  lemma {:induction false} FetchError(env: Env, fetches: seq<Plan.FetchView>, k: nat, i: nat)
    requires k < |fetches| && i < |ErrorsIn(env, fetches[k])|
    ensures var all := ProviderErrors(env, fetches);
            && ErrorsBefore(env, fetches, k) + i < |all|
            && PlacedRight(fetches[k].consumers, ErrorsIn(env, fetches[k])[i], all[ErrorsBefore(env, fetches, k) + i])
  {
    var rest, here := fetches[1..], ErrorsIn(env, fetches[0]);
    PassedOn(fetches[0].consumers, here);
    assert ProviderErrors(env, fetches) == PassOn(fetches[0].consumers, here) + ProviderErrors(env, rest);
    var all := ProviderErrors(env, fetches);
    if k == 0 {
      assert all[i] == PassOn(fetches[0].consumers, here)[i];
    } else {
      BeforeRest(env, fetches, k);
      FetchError(env, rest, k - 1, i);
      var j := ErrorsBefore(env, rest, k - 1) + i;
      assert all[|here| + j] == ProviderErrors(env, rest)[j];
    }
  }

  lemma {:induction false} BeforeRest(env: Env, fetches: seq<Plan.FetchView>, k: nat)
    requires 0 < k <= |fetches|
    ensures ErrorsBefore(env, fetches, k) == |ErrorsIn(env, fetches[0])| + ErrorsBefore(env, fetches[1..], k - 1)
  {
    if k > 1 {
      BeforeRest(env, fetches, k - 1);
      assert fetches[1..][k - 2] == fetches[k - 1];
    }
  }

  lemma AfterOwn(env: Env, own: seq<Error>, passed: seq<Error>)
    requires AllPassedOn(env, 0, passed)
    ensures AllPassedOn(env, |own|, own + passed)
  {
    var fetches := env.plan.fetches;
    forall k: nat, i: nat | k < |fetches| && i < |ErrorsIn(env, fetches[k])|
      ensures Reported(env, |own|, own + passed, k, i)
    {
      assert Reported(env, 0, passed, k, i);
    }
  }

  /** A response ends with the errors of all provider answers, in plan order, each at the first consumer field that is
      related to the place the provider names, or without a path. */
  lemma EveryErrorIsPassedOn(env: Env, fields: seq<Field>)
    ensures var own := MergeObject(env, fields, "Query", Top, []).errors;
            own <= Merged(env, fields).errors && AllPassedOn(env, |own|, Merged(env, fields).errors)
  {
    var fetches := env.plan.fetches;
    FetchErrors(env, fetches);
    assert AllPassedOn(env, 0, ProviderErrors(env, fetches)) by {
      forall k: nat, i: nat | k < |fetches| && i < |ErrorsIn(env, fetches[k])|
        ensures Reported(env, 0, ProviderErrors(env, fetches), k, i)
      {
        FetchError(env, fetches, k, i);
      }
    }
    AfterOwn(env, MergeObject(env, fields, "Query", Top, []).errors, ProviderErrors(env, fetches));
  }
}
