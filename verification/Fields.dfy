/** The normalized consumer operation: the fields the federator plans against. */
module Fields {
  import opened Wrappers
  import Json
  import Strings

  /** A GraphQL type reference. */
  datatype TypeRef =
    | Named(name: string, nonNull: bool)
    | ListOf(elem: TypeRef, nonNull: bool)
  {
    /** The named type inside any lists. */
    function BaseName(): string {
      match this
      case Named(name, _) => name
      case ListOf(elem, _) => elem.BaseName()
    }

    /** The type as written: "[String!]!". */
    function Written(): string {
      match this
      case Named(name, required) => if required then name + "!" else name
      case ListOf(elem, required) => if required then "[" + elem.Written() + "]!" else "[" + elem.Written() + "]"
    }

    /** The type's name is a name: it holds none of the punctuation of type references. */
    predicate Plain() {
      match this
      case Named(name, _) => name != "" && forall c | c in name :: c != '[' && c != ']' && c != '!' && c != '\0'
      case ListOf(elem, _) => elem.Plain()
    }
  }

  /** A type reference can be read back from its text. */
  lemma {:induction false} WrittenInjective(a: TypeRef, b: TypeRef)
    requires a.Plain() && b.Plain() && a.Written() == b.Written()
    ensures a == b
  {
    WrittenEnds(a);
    WrittenEnds(b);
    var s := a.Written();
    if a.ListOf? {
      var inner := if a.nonNull then s[1..|s| - 2] else s[1..|s| - 1];
      assert inner == a.elem.Written() && inner == b.elem.Written();
      WrittenInjective(a.elem, b.elem);
    }
  }

  /** The text without the punctuation of type references. */
  function Unpunctuated(s: string): string {
    if s == "" then ""
    else (if s[0] in {'[', ']', '!'} then "" else [s[0]]) + Unpunctuated(s[1..])
  }

  lemma {:induction false} UnpunctuatedConcat(a: string, b: string)
    ensures Unpunctuated(a + b) == Unpunctuated(a) + Unpunctuated(b)
  {
    if a == "" {
      assert a + b == b;
    } else {
      assert (a + b)[1..] == a[1..] + b;
      UnpunctuatedConcat(a[1..], b);
    }
  }

  lemma {:induction false} NameUnpunctuated(name: string)
    requires forall c | c in name :: c != '[' && c != ']' && c != '!'
    ensures Unpunctuated(name) == name
  {
    if name != "" {
      assert name[0] in name && forall c | c in name[1..] :: c in name;
      NameUnpunctuated(name[1..]);
    }
  }

  /** The named type of a type reference is what is left of its text without brackets and exclamation marks. */
  lemma {:induction false} BaseNameWritten(t: TypeRef)
    requires t.Plain()
    ensures t.BaseName() == Unpunctuated(t.Written())
  {
    match t {
      case Named(name, _) =>
        NameUnpunctuated(name);
        UnpunctuatedConcat(name, "!");
        assert Unpunctuated("!") == "";
      case ListOf(elem, _) =>
        var inner := elem.Written();
        BaseNameWritten(elem);
        UnpunctuatedConcat("[" + inner, "]");
        UnpunctuatedConcat("[" + inner, "]!");
        UnpunctuatedConcat("[", inner);
        assert Unpunctuated("[") == Unpunctuated("]") == "" == Unpunctuated("]!");
    }
  }

  lemma WrittenEnds(t: TypeRef)
    requires t.Plain()
    ensures t.Written() != ""
    ensures t.nonNull <==> t.Written()[|t.Written()| - 1] == '!'
    ensures t.ListOf? <==> t.Written()[0] == '['
    ensures t.Named? && t.nonNull ==> t.Written()[..|t.Written()| - 1] == t.name
  {
    if t.Named? {
      assert forall i | 0 <= i < |t.name| :: t.name[i] in t.name;
    }
  }

  lemma {:induction false} WrittenNulFree(t: TypeRef)
    requires t.Plain()
    ensures Strings.Without(t.Written(), '\0')
  {
    match t {
      case Named(name, _) =>
        assert forall i | 0 <= i < |name| :: name[i] in name;
      case ListOf(elem, _) =>
        WrittenNulFree(elem);
    }
  }

  /** A field's @sourceInfo: the provider field that serves it. */
  datatype SourceInfo = SourceInfo(schemaId: string, providerField: string)

  /** A value as written in a query or a schema: a variable, or any other text. */
  datatype Value = VariableRef(name: string) | Literal(text: string)

  datatype ArgDef = ArgDef(name: string, typ: TypeRef, default: Option<Value>)

  datatype FieldDef = FieldDef(typ: TypeRef, args: seq<ArgDef>)

  /** What a normalized operation asks for under one key: all selections of that key, merged. */
  datatype Field = Field(
    responseKey: string,
    name: string,
    path: seq<string>,
    schemaPath: seq<string>,
    arguments: map<string, Json.Json>,
    definition: FieldDef,
    source: Option<SourceInfo>,
    selections: seq<Field>)
  {
    predicate IsList() {
      definition.typ.ListOf?
    }

    predicate IsTypename() {
      name == "__typename"
    }

    /** Read directly from a provider: a leaf, or a list whose items are read relative to it. */
    predicate IsSourced() {
      !IsTypename() && source.Some? && (IsList() || selections == [])
    }

    /** A sourced list whose items are objects. */
    predicate IsObjectList() {
      IsSourced() && IsList() && selections != []
    }
  }

  /** Every field of the tree, parents before their selections, in query order. */
  function Walk(fields: seq<Field>): seq<Field> {
    if fields == [] then []
    else [fields[0]] + Walk(fields[0].selections) + Walk(fields[1..])
  }

  /** The shape normalization gives: response keys distinct at every level, and every path the response keys from
      the root. */
  predicate WellShaped(fields: seq<Field>, at: seq<string>) {
    && (forall i, j | 0 <= i < j < |fields| :: fields[i].responseKey != fields[j].responseKey)
    && (forall f | f in fields :: f.path == at + [f.responseKey] && WellShaped(f.selections, f.path))
  }

  /** The path starts with that of one of the fields, which in turn lies below `at`. */
  predicate Under(fields: seq<Field>, at: seq<string>, path: seq<string>) {
    exists i :: 0 <= i < |fields| && fields[i].path <= path && at < fields[i].path
  }

  lemma UnderFirst(fields: seq<Field>, at: seq<string>, path: seq<string>)
    requires fields != [] && at < fields[0].path && (path == fields[0].path || fields[0].path < path)
    ensures Under(fields, at, path)
  {
    assert fields[0].path <= path;
  }

  lemma {:induction false} WalkBelow(fields: seq<Field>, at: seq<string>)
    requires WellShaped(fields, at)
    ensures forall f | f in Walk(fields) :: Under(fields, at, f.path)
  {
    if fields != [] {
      var first, rest := fields[0], fields[1..];
      assert first in fields;
      assert forall f | f in rest :: f in fields;
      WalkBelow(first.selections, first.path);
      WalkBelow(rest, at);
      forall f | f in Walk(fields) ensures Under(fields, at, f.path) {
        if f !in Walk(rest) {
          UnderFirst(fields, at, f.path);
        }
      }
    }
  }

  /** A field of the first subtree and a field of a later one differ in path. */
  lemma SubtreesDisjoint(fields: seq<Field>, at: seq<string>, f: Field, g: Field)
    requires fields != [] && WellShaped(fields, at)
    requires f == fields[0] || f in Walk(fields[0].selections)
    requires g in Walk(fields[1..])
    ensures f.path != g.path
  {
    var first, rest := fields[0], fields[1..];
    assert first in fields;
    assert forall h | h in rest :: h in fields;
    WalkBelow(rest, at);
    var k :| 0 <= k < |rest| && rest[k].path <= g.path && at < rest[k].path;
    assert rest[k] == fields[k + 1];
    assert first.path <= f.path by {
      if f != first {
        WalkBelow(first.selections, first.path);
      }
    }
    assert first.path[|at|] == first.responseKey && rest[k].path[|at|] == rest[k].responseKey;
  }

  predicate DistinctPaths(walk: seq<Field>) {
    forall i, j | 0 <= i < j < |walk| :: walk[i].path != walk[j].path
  }

  lemma DistinctConcat(a: seq<Field>, b: seq<Field>)
    requires DistinctPaths(a) && DistinctPaths(b)
    requires forall f, g | f in a && g in b :: f.path != g.path
    ensures DistinctPaths(a + b)
  {
    var c := a + b;
    forall i, j | 0 <= i < j < |c| ensures c[i].path != c[j].path {
      if i < |a| <= j {
        assert c[i] in a && c[j] in b;
      }
    }
  }

  /** In a well-shaped tree a path names one field. */
  lemma {:induction false} PathsUnique(fields: seq<Field>, at: seq<string>)
    requires WellShaped(fields, at)
    ensures DistinctPaths(Walk(fields))
  {
    if fields != [] {
      var first, rest := fields[0], fields[1..];
      var inner, outer := Walk(first.selections), Walk(rest);
      assert first in fields;
      assert forall h | h in rest :: h in fields;
      PathsUnique(first.selections, first.path);
      PathsUnique(rest, at);
      forall g | g in inner ensures first.path != g.path {
        WalkBelow(first.selections, first.path);
      }
      DistinctConcat([first], inner);
      forall f, g | f in [first] + inner && g in outer ensures f.path != g.path {
        SubtreesDisjoint(fields, at, f, g);
      }
      DistinctConcat([first] + inner, outer);
    }
  }
}
