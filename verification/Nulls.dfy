/** Null propagation in merged responses (section 6.4.4 of the GraphQL specification, October 2021). */
module Nulls {
  import opened Wrappers
  import opened Json
  import opened Fields
  import Paths
  import opened Merge

  /** A value a field may have in a response: not null for a non-null field; for an object field an object with a
      permitted value under every response key; for an object list, items that are objects or, if allowed, null. */
  predicate Permitted(f: Field, v: Json)
    decreases f, 1
  {
    && (f.definition.typ.nonNull ==> v != Null)
    && (v != Null && f.name != "__typename" && f.selections != [] ==>
          if f.source.Some? && f.definition.typ.ListOf?
          then v.List? && forall i | 0 <= i < |v.items| :: PermittedItem(f, v.items[i])
          else v.Object? && PermittedMembers(f.selections, v.members))
  }

  predicate PermittedItem(f: Field, item: Json)
    requires f.definition.typ.ListOf?
    decreases f, 0
  {
    if item == Null then !f.definition.typ.elem.nonNull
    else item.Object? && PermittedMembers(f.selections, item.members)
  }

  predicate PermittedMembers(fields: seq<Field>, members: map<string, Json>)
    decreases fields, 0
  {
    && members.Keys == (set f | f in fields :: f.responseKey)
    && forall f | f in fields :: Permitted(f, members[f.responseKey])
  }

  /** Some recorded error is at `path` or below it. */
  predicate Recorded(errors: seq<Error>, path: seq<Segment>) {
    exists e | e in errors :: path <= e.path
  }

  predicate AllBelow(errors: seq<Error>, path: seq<Segment>) {
    forall e | e in errors :: path <= e.path
  }

  /** What merging reads for a sourced field, or nothing when the provider operation failed. */
  function Reads(env: Env, f: Field, scope: Scope): Option<Json>
    requires f.source.Some?
  {
    var provider := f.source.value.providerField;
    match scope
    case Within(item, declared) => Some(ValueAt(item, Paths.Split(Paths.RelativePath(provider, declared))))
    case Top =>
      match ResultFor(env, f)
      case Failed => None
      case Answered(data, _) => Some(ValueAt(Object(data), Paths.Split(provider)))
  }

  // Where null has to be

  /** The field is null: nothing was read for it, or null, or a list with an item that must not be null and is; or an
      object in which a field that must not be null is. */
  predicate Nulled(env: Env, f: Field, scope: Scope)
    decreases f, 2
  {
    if f.IsTypename() then false
    else if f.IsSourced() then
      match Reads(env, f, scope)
      case None => true
      case Some(raw) => NulledRead(env, f, raw)
    else f.selections == [] || AnyFails(env, f.selections, scope)
  }

  predicate NulledRead(env: Env, f: Field, raw: Json)
    requires f.IsSourced()
    decreases f, 1
  {
    if !f.IsObjectList() then raw == Null
    else if !raw.List? then true
    else f.definition.typ.elem.nonNull && exists i :: 0 <= i < |raw.items| && NulledItem(env, f, raw.items[i])
  }

  predicate NulledItem(env: Env, f: Field, source: Json)
    requires f.IsObjectList()
    decreases f, 0
  {
    source == Null || AnyFails(env, f.selections, Within(source, f.source.value.providerField))
  }

  /** Some field that must not be null is. */
  predicate AnyFails(env: Env, fields: seq<Field>, scope: Scope)
    decreases fields, 0
  {
    exists f | f in fields :: f.definition.typ.nonNull && Nulled(env, f, scope)
  }

  /** There is a null exactly where there has to be one, and it has its reason: the provider holds null there, or an
      error is recorded at or below it. Everything else is what the provider answered. */
  predicate Explained(env: Env, f: Field, v: Json, scope: Scope, errors: seq<Error>, path: seq<Segment>)
    decreases f, 2
  {
    && (v == Null <==> Nulled(env, f, scope))
    && if f.IsTypename() then true
    else if f.IsSourced() then
      match Reads(env, f, scope)
      case None => v == Null && Recorded(errors, path)
      case Some(raw) => ExplainedRead(env, f, v, raw, errors, path)
    else if f.selections == [] then v == Null
    else if v == Null then Recorded(errors, path)
    else v.Object? && ExplainedMembers(env, f.selections, v.members, scope, errors, path)
  }

  predicate ExplainedRead(env: Env, f: Field, v: Json, raw: Json, errors: seq<Error>, path: seq<Segment>)
    requires f.IsSourced()
    decreases f, 1
  {
    if !f.IsObjectList() then v == raw
    else if v == Null then raw == Null || Recorded(errors, path)
    else
      && v.List? && raw.List? && |v.items| == |raw.items|
      && forall i | 0 <= i < |v.items| :: ExplainedItem(env, f, v.items[i], raw.items[i], errors, path + [Index(i)])
  }

  predicate ExplainedItem(env: Env, f: Field, item: Json, source: Json, errors: seq<Error>, path: seq<Segment>)
    requires f.IsObjectList()
    decreases f, 0
  {
    && (item == Null <==> NulledItem(env, f, source))
    && if item == Null then source == Null || Recorded(errors, path)
    else
      item.Object? &&
      ExplainedMembers(env, f.selections, item.members, Within(source, f.source.value.providerField), errors, path)
  }

  predicate ExplainedMembers(env: Env, fields: seq<Field>, members: map<string, Json>, scope: Scope,
                             errors: seq<Error>, path: seq<Segment>)
    decreases fields, 0
  {
    forall f | f in fields && f.responseKey in members ::
      Explained(env, f, members[f.responseKey], scope, errors, path + [Member(f.responseKey)])
  }

  /** What completing a value guarantees. */
  predicate Sound(env: Env, f: Field, scope: Scope, out: ValueOut, path: seq<Segment>) {
    && AllBelow(out.errors, path)
    && (out.failed <==> f.definition.typ.nonNull && Nulled(env, f, scope))
    && if out.failed then Recorded(out.errors, path)
       else Permitted(f, out.value) && Explained(env, f, out.value, scope, out.errors, path)
  }

  predicate SoundRead(env: Env, f: Field, raw: Json, out: ValueOut, path: seq<Segment>)
    requires f.IsSourced()
  {
    && AllBelow(out.errors, path)
    && (out.failed <==> f.definition.typ.nonNull && NulledRead(env, f, raw))
    && (out.value == Null <==> NulledRead(env, f, raw))
    && if out.failed then Recorded(out.errors, path)
       else Permitted(f, out.value) && ExplainedRead(env, f, out.value, raw, out.errors, path)
  }

  predicate SoundObject(env: Env, fields: seq<Field>, scope: Scope, out: ObjectOut, path: seq<Segment>) {
    && AllBelow(out.errors, path)
    && (out.failed <==> AnyFails(env, fields, scope))
    && if out.failed then Recorded(out.errors, path)
       else PermittedMembers(fields, out.members) && ExplainedMembers(env, fields, out.members, scope, out.errors, path)
  }

  // More errors explain no less

  lemma {:induction false} ExplainedMore(env: Env, f: Field, v: Json, scope: Scope, errors: seq<Error>,
                                         more: seq<Error>, path: seq<Segment>)
    requires Explained(env, f, v, scope, errors, path) && forall e | e in errors :: e in more
    ensures Explained(env, f, v, scope, more, path)
    decreases f, 2
  {
    if f.IsTypename() {
    } else if f.IsSourced() {
      if Reads(env, f, scope).Some? {
        ExplainedReadMore(env, f, v, Reads(env, f, scope).value, errors, more, path);
      }
    } else if f.selections != [] && v != Null {
      ExplainedMembersMore(env, f.selections, v.members, scope, errors, more, path);
    }
  }

  lemma {:induction false} ExplainedReadMore(env: Env, f: Field, v: Json, raw: Json, errors: seq<Error>,
                                             more: seq<Error>, path: seq<Segment>)
    requires f.IsSourced() && ExplainedRead(env, f, v, raw, errors, path) && forall e | e in errors :: e in more
    ensures ExplainedRead(env, f, v, raw, more, path)
    decreases f, 1
  {
    if f.IsObjectList() && v != Null {
      forall i | 0 <= i < |v.items| ensures ExplainedItem(env, f, v.items[i], raw.items[i], more, path + [Index(i)]) {
        ExplainedItemMore(env, f, v.items[i], raw.items[i], errors, more, path + [Index(i)]);
      }
    }
  }

  lemma {:induction false} ExplainedItemMore(env: Env, f: Field, item: Json, source: Json, errors: seq<Error>,
                                             more: seq<Error>, path: seq<Segment>)
    requires f.IsObjectList() && ExplainedItem(env, f, item, source, errors, path)
    requires forall e | e in errors :: e in more
    ensures ExplainedItem(env, f, item, source, more, path)
    decreases f, 0
  {
    if item != Null {
      ExplainedMembersMore(env, f.selections, item.members, Within(source, f.source.value.providerField), errors, more,
                           path);
    }
  }

  lemma {:induction false} ExplainedMembersMore(env: Env, fields: seq<Field>, members: map<string, Json>, scope: Scope,
                                                errors: seq<Error>, more: seq<Error>, path: seq<Segment>)
    requires ExplainedMembers(env, fields, members, scope, errors, path) && forall e | e in errors :: e in more
    ensures ExplainedMembers(env, fields, members, scope, more, path)
    decreases fields, 0
  {
    forall f | f in fields && f.responseKey in members
      ensures Explained(env, f, members[f.responseKey], scope, more, path + [Member(f.responseKey)])
    {
      ExplainedMore(env, f, members[f.responseKey], scope, errors, more, path + [Member(f.responseKey)]);
    }
  }

  // Every part of merging is sound

  lemma {:induction false} ObjectSound(env: Env, fields: seq<Field>, typeName: string, scope: Scope, path: seq<Segment>)
    requires KeysDistinct(fields)
    ensures SoundObject(env, fields, scope, MergeObject(env, fields, typeName, scope, path), path)
    decreases fields, 0
  {
    var out := MergeObject(env, fields, typeName, scope, path);
    if fields != [] {
      var first, rest := fields[0], fields[1..];
      var v := MergeValue(env, first, typeName, scope, path);
      var below := path + [Member(first.responseKey)];
      assert first in fields;
      ValueSound(env, first, typeName, scope, path);
      if !v.failed {
        assert KeysDistinct(rest) by {
          assert forall i | 0 <= i < |rest| :: rest[i] == fields[i + 1];
        }
        var r := MergeObject(env, rest, typeName, scope, path);
        ObjectSound(env, rest, typeName, scope, path);
        if r.failed {
          var e :| e in r.errors && path <= e.path;
          assert e in out.errors;
        } else {
          MembersJoin(fields, v.value, r.members, out.members);
          ExplainedMore(env, first, v.value, scope, v.errors, out.errors, below);
          ExplainedMembersMore(env, rest, r.members, scope, r.errors, out.errors, path);
        }
      }
    }
  }

  /** Response keys are distinct in every selection set. */
  predicate KeysDistinct(fields: seq<Field>) {
    && (forall i, j | 0 <= i < j < |fields| :: fields[i].responseKey != fields[j].responseKey)
    && (forall f | f in fields :: KeysDistinct(f.selections))
  }

  lemma {:induction false} WellShapedKeysDistinct(fields: seq<Field>, at: seq<string>)
    requires WellShaped(fields, at)
    ensures KeysDistinct(fields)
  {
    forall f | f in fields ensures KeysDistinct(f.selections) {
      WellShapedKeysDistinct(f.selections, f.path);
    }
  }

  lemma MembersJoin(fields: seq<Field>, value: Json, rest: map<string, Json>, all: map<string, Json>)
    requires fields != [] && (forall i, j | 0 <= i < j < |fields| :: fields[i].responseKey != fields[j].responseKey)
    requires rest.Keys == set f | f in fields[1..] :: f.responseKey
    requires all == map[fields[0].responseKey := value] + rest
    ensures all.Keys == set f | f in fields :: f.responseKey
    ensures all[fields[0].responseKey] == value
    ensures forall f | f in fields[1..] :: f.responseKey in all && all[f.responseKey] == rest[f.responseKey]
  {
    assert fields == [fields[0]] + fields[1..];
    forall f | f in fields[1..] ensures f.responseKey != fields[0].responseKey {
      var i :| 0 <= i < |fields[1..]| && fields[1..][i] == f;
      assert fields[i + 1] == f;
    }
  }

  lemma {:induction false} ValueSound(env: Env, f: Field, parentType: string, scope: Scope, parentPath: seq<Segment>)
    requires KeysDistinct(f.selections)
    ensures Sound(env, f, scope, MergeValue(env, f, parentType, scope, parentPath),
                  parentPath + [Member(f.responseKey)])
    decreases f, 3
  {
    var path := parentPath + [Member(f.responseKey)];
    if f.IsTypename() {
    } else if f.IsSourced() {
      match scope {
        case Within(item, declared) =>
          var relative := Paths.RelativePath(f.source.value.providerField, declared);
          SourcedSound(env, f, ValueAt(item, Paths.Split(relative)), path);
        case Top =>
          match ResultFor(env, f) {
            case Failed =>
              assert Error(path, PROVIDER_ERROR) in MergeValue(env, f, parentType, scope, parentPath).errors;
            case Answered(data, _) =>
              SourcedSound(env, f, ValueAt(Object(data), Paths.Split(f.source.value.providerField)), path);
          }
      }
    } else if f.selections != [] {
      var o := MergeObject(env, f.selections, f.definition.typ.BaseName(), scope, path);
      ObjectSound(env, f.selections, f.definition.typ.BaseName(), scope, path);
      assert o.errors + [] == o.errors;
    } else if f.definition.typ.nonNull {
      assert Error(path, "") in MergeValue(env, f, parentType, scope, parentPath).errors;
    }
  }

  lemma {:induction false} SourcedSound(env: Env, f: Field, raw: Json, path: seq<Segment>)
    requires f.IsSourced() && KeysDistinct(f.selections)
    ensures SoundRead(env, f, raw, MergeSourced(env, f, raw, path), path)
    decreases f, 2
  {
    var out := MergeSourced(env, f, raw, path);
    if !f.IsObjectList() || raw == Null {
      if out.failed {
        assert Error(path, "") in out.errors;
      }
    } else if !raw.List? {
      assert Error(path, PROVIDER_ERROR) in out.errors;
    } else {
      var items := MergeItems(env, f, raw.items, 0, path);
      ItemsSound(env, f, raw.items, 0, path);
      assert items.errors + [] == items.errors;
      if !items.failed {
        forall i | 0 <= i < |items.items|
          ensures SoundItem(env, f, raw.items[i], items.items[i], items.errors, path + [Index(i)])
        {
          assert SoundItem(env, f, raw.items[0 + i], items.items[i], items.errors, path + [Index(0 + i)]);
        }
      }
    }
  }

  /** The items from position `i` on. An item is null only because the provider's was, or with an error below it. */
  lemma {:induction false} ItemsSound(env: Env, f: Field, items: seq<Json>, i: nat, path: seq<Segment>)
    requires f.IsObjectList() && i <= |items| && KeysDistinct(f.selections)
    ensures SoundItems(env, f, items, i, MergeItems(env, f, items, i, path), path)
    decreases f, 1, |items| - i
  {
    var out := MergeItems(env, f, items, i, path);
    if i < |items| {
      var v := MergeItem(env, f, items[i], path + [Index(i)]);
      ItemSound(env, f, items[i], path + [Index(i)]);
      if !v.failed {
        var rest := MergeItems(env, f, items, i + 1, path);
        ItemsSound(env, f, items, i + 1, path);
        if !rest.failed {
          forall j | 0 <= j < |out.items|
            ensures SoundItem(env, f, items[i + j], out.items[j], out.errors, path + [Index(i + j)])
          {
            if j == 0 {
              SoundItemMore(env, f, items[i], v.value, v.errors, out.errors, path + [Index(i)]);
            } else {
              assert i + 1 + (j - 1) == i + j && out.items[j] == rest.items[j - 1];
              SoundItemMore(env, f, items[i + j], rest.items[j - 1], rest.errors, out.errors, path + [Index(i + j)]);
            }
          }
        }
      }
    }
  }

  /** What completing the items from position `i` on guarantees. */
  predicate SoundItems(env: Env, f: Field, items: seq<Json>, i: nat, out: ItemsOut, path: seq<Segment>)
    requires f.IsObjectList() && i <= |items|
  {
    && AllBelow(out.errors, path)
    && (out.failed <==>
          f.definition.typ.elem.nonNull && exists j :: i <= j < |items| && NulledItem(env, f, items[j]))
    && if out.failed then Recorded(out.errors, path)
       else
         && |out.items| == |items| - i
         && forall j | 0 <= j < |out.items| ::
              SoundItem(env, f, items[i + j], out.items[j], out.errors, path + [Index(i + j)])
  }

  predicate SoundItem(env: Env, f: Field, source: Json, item: Json, errors: seq<Error>, path: seq<Segment>)
    requires f.IsObjectList()
  {
    PermittedItem(f, item) && ExplainedItem(env, f, item, source, errors, path)
  }

  lemma SoundItemMore(env: Env, f: Field, source: Json, item: Json, errors: seq<Error>, more: seq<Error>,
                      path: seq<Segment>)
    requires f.IsObjectList() && SoundItem(env, f, source, item, errors, path) && forall e | e in errors :: e in more
    ensures SoundItem(env, f, source, item, more, path)
  {
    ExplainedItemMore(env, f, item, source, errors, more, path);
  }

  lemma {:induction false} ItemSound(env: Env, f: Field, item: Json, path: seq<Segment>)
    requires f.IsObjectList() && KeysDistinct(f.selections)
    ensures var out := MergeItem(env, f, item, path);
            && AllBelow(out.errors, path)
            && (out.failed <==> f.definition.typ.elem.nonNull && NulledItem(env, f, item))
            && if out.failed then Recorded(out.errors, path)
               else SoundItem(env, f, item, out.value, out.errors, path)
    decreases f, 0
  {
    var elem := f.definition.typ.elem;
    if item == Null {
      if elem.nonNull {
        assert Error(path, "") in MergeItem(env, f, item, path).errors;
      }
    } else {
      ObjectSound(env, f.selections, elem.BaseName(), Within(item, f.source.value.providerField), path);
    }
  }

  /** Null propagation is exact: no non-null field or object-list item of the data is null; every null of the data, be
      it a leaf, an object, a list or a list's item, is the provider's own or has an error recorded at or below it, a
      leaf without a source excepted; a value is null, and the data missing, only where nothing else is allowed; and
      missing data has an error. */
  lemma NullPropagationExact(env: Env, fields: seq<Field>)
    requires KeysDistinct(fields)
    ensures var response := Merged(env, fields);
            && (response.data.Some? ==>
                  && PermittedMembers(fields, response.data.value)
                  && ExplainedMembers(env, fields, response.data.value, Top, response.errors, []))
            && (response.data.None? <==> AnyFails(env, fields, Top))
            && (response.data.None? ==> response.errors != [])
  {
    var o, response := MergeObject(env, fields, "Query", Top, []), Merged(env, fields);
    ObjectSound(env, fields, "Query", Top, []);
    if !o.failed {
      ExplainedMembersMore(env, fields, o.members, Top, o.errors, response.errors, []);
    }
  }
}
