/**
 * The schema-selection helpers of the code generator: for each model of the
 * data model, which fields may serve as a cursor, which one is the default,
 * whether the model has relations; and the two string helpers the emitted
 * code uses, `lowerCase` and `quote`.
 */
module Generator {
  import opened Wrappers

  /** The part of a schema field the generator reads. */
  datatype Field = Field(name: string, isId: bool, isUnique: bool, relationName: Option<string>)

  /** A schema model: its name and its fields in declaration order. */
  datatype Model = Model(name: string, fields: seq<Field>)

  // ---------------------------------------------------------------------------
  // Default cursor fields
  // ---------------------------------------------------------------------------

  /** `fields.find(p)`: the first field satisfying `p`, if any. */
  function Find(fields: seq<Field>, p: Field -> bool): (r: Option<Field>)
    ensures r.None? <==> forall i :: 0 <= i < |fields| ==> !p(fields[i])
    ensures r.Some? ==>
              exists i :: 0 <= i < |fields| && fields[i] == r.value && p(fields[i]) &&
                          forall j :: 0 <= j < i ==> !p(fields[j])
    decreases |fields|
  {
    if fields == [] then None
    else if p(fields[0]) then Some(fields[0])
    else
      var r := Find(fields[1..], p);
      assert r.Some? ==> exists i :: 0 < i < |fields| && fields[i] == r.value && p(fields[i]) &&
                          forall j :: 1 <= j < i ==> !p(fields[j]) by {
        if r.Some? {
          var i :| 0 <= i < |fields[1..]| && fields[1..][i] == r.value && p(fields[1..][i]) &&
                   forall j :: 0 <= j < i ==> !p(fields[1..][j]);
          forall j | 1 <= j <= i ensures !p(fields[j]) {
            assert fields[j] == fields[1..][j - 1];
          }
        }
      }
      r
  }

  /** `find(...)?.name`. */
  function NameOf(f: Option<Field>): Option<string> {
    match f
    case None => None
    case Some(field) => Some(field.name)
  }

  /**
   * The default cursor field of one model, `idFieldName ?? uniqueFieldName`:
   * the first id field if there is one, wherever unique fields stand,
   * otherwise the first unique field, otherwise none.
   */
  function DefaultCursorField(m: Model): (r: Option<string>)
    ensures forall i :: (0 <= i < |m.fields| && m.fields[i].isId &&
                        (forall j :: 0 <= j < i ==> !m.fields[j].isId)) ==>
              r == Some(m.fields[i].name)
    ensures (forall j :: 0 <= j < |m.fields| ==> !m.fields[j].isId) ==>
              forall i :: (0 <= i < |m.fields| && m.fields[i].isUnique &&
                           (forall j :: 0 <= j < i ==> !m.fields[j].isUnique)) ==>
                r == Some(m.fields[i].name)
    ensures r.None? <==> forall j :: 0 <= j < |m.fields| ==> !m.fields[j].isId && !m.fields[j].isUnique
  {
    var idFieldName := NameOf(Find(m.fields, (f: Field) => f.isId));
    var uniqueFieldName := NameOf(Find(m.fields, (f: Field) => f.isUnique));
    if idFieldName.Some? then idFieldName else uniqueFieldName
  }

  /**
   * The dictionary `models.reduce(...)` builds: the models are folded in
   * order, each one setting the entry of its name.
   */
  function CursorDefaults(models: seq<Model>): map<string, Option<string>>
    decreases |models|
  {
    if models == [] then map[]
    else
      var last := models[|models| - 1];
      CursorDefaults(models[..|models| - 1])[last.name := DefaultCursorField(last)]
  }

  /** Every model name is a key, also when the model has no default. */
  lemma {:induction false} CursorDefaultsKeys(models: seq<Model>)
    ensures CursorDefaults(models).Keys == set i | 0 <= i < |models| :: models[i].name
    decreases |models|
  {
    if models != [] {
      var init := models[..|models| - 1];
      CursorDefaultsKeys(init);
      var names := set i | 0 <= i < |models| :: models[i].name;
      var initNames := set i | 0 <= i < |init| :: init[i].name;
      forall x | x in names ensures x in initNames + {models[|models| - 1].name} {
        var i :| 0 <= i < |models| && models[i].name == x;
        if i < |init| { assert init[i] == models[i]; }
      }
      forall x | x in initNames ensures x in names {
        var i :| 0 <= i < |init| && init[i].name == x;
        assert models[i] == init[i];
      }
      assert names == initNames + {models[|models| - 1].name};
    }
  }

  /** Of several models with one name the last one decides that name's default. */
  lemma {:induction false} CursorDefaultsLastWins(models: seq<Model>, i: nat)
    requires i < |models|
    requires forall j :: i < j < |models| ==> models[j].name != models[i].name
    ensures models[i].name in CursorDefaults(models)
    ensures CursorDefaults(models)[models[i].name] == DefaultCursorField(models[i])
    decreases |models|
  {
    var init := models[..|models| - 1];
    if i < |models| - 1 {
      assert init[i] == models[i];
      CursorDefaultsLastWins(init, i);
      assert models[|models| - 1].name != models[i].name;
    }
  }

  /**
   * getDefaultCursorFields: folds the models into a dictionary from model name
   * to default cursor field.  Every model name is a key, also when it has no
   * default, and of two models with the same name the later one wins.
   */
  method GetDefaultCursorFields(models: seq<Model>) returns (acc: map<string, Option<string>>)
    ensures acc == CursorDefaults(models)
    ensures acc.Keys == set i | 0 <= i < |models| :: models[i].name
    ensures forall i :: (0 <= i < |models| &&
                        (forall j :: i < j < |models| ==> models[j].name != models[i].name)) ==>
              acc[models[i].name] == DefaultCursorField(models[i])
  {
    acc := map[];
    for n := 0 to |models|
      invariant acc == CursorDefaults(models[..n])
    {
      var cur := models[n];
      assert models[..n + 1][..n] == models[..n];
      acc := acc[cur.name := DefaultCursorField(cur)];
    }
    assert models[..|models|] == models;
    CursorDefaultsKeys(models);
    forall i | 0 <= i < |models| && (forall j :: i < j < |models| ==> models[j].name != models[i].name)
      ensures acc[models[i].name] == DefaultCursorField(models[i])
    {
      CursorDefaultsLastWins(models, i);
    }
  }

  // ---------------------------------------------------------------------------
  // Per-model facts for the emitted declarations
  // ---------------------------------------------------------------------------

  predicate IsCursorCandidate(f: Field) {
    f.isUnique || f.isId
  }

  /** `fields.filter(f => f.isUnique || f.isId).map(f => f.name)`. */
  function CursorFields(fields: seq<Field>): (names: seq<string>)
    ensures |names| <= |fields|
    ensures forall x :: x in names <==> exists i :: 0 <= i < |fields| && IsCursorCandidate(fields[i]) && fields[i].name == x
    decreases |fields|
  {
    if fields == [] then []
    else
      var rest := CursorFields(fields[1..]);
      assert forall x :: x in rest <==> exists i :: 1 <= i < |fields| && IsCursorCandidate(fields[i]) && fields[i].name == x by {
        forall x ensures x in rest <==> exists i :: 1 <= i < |fields| && IsCursorCandidate(fields[i]) && fields[i].name == x {
          if x in rest {
            var i :| 0 <= i < |fields[1..]| && IsCursorCandidate(fields[1..][i]) && fields[1..][i].name == x;
            assert fields[i + 1] == fields[1..][i];
          }
          if exists i :: 1 <= i < |fields| && IsCursorCandidate(fields[i]) && fields[i].name == x {
            var i :| 1 <= i < |fields| && IsCursorCandidate(fields[i]) && fields[i].name == x;
            assert fields[1..][i - 1] == fields[i];
          }
        }
      }
      if IsCursorCandidate(fields[0]) then [fields[0].name] + rest else rest
  }

  /**
   * The candidates keep the fields' order: the filter commutes with
   * concatenation, so the names appear exactly as their fields do.
   */
  lemma {:induction false} CursorFieldsAppend(a: seq<Field>, b: seq<Field>)
    ensures CursorFields(a + b) == CursorFields(a) + CursorFields(b)
    decreases |a|
  {
    if a != [] {
      assert (a + b)[0] == a[0] && (a + b)[1..] == a[1..] + b;
      CursorFieldsAppend(a[1..], b);
      assert CursorFields(a + b) == (if IsCursorCandidate(a[0]) then [a[0].name] else []) + CursorFields(a[1..] + b);
    } else {
      assert a + b == b;
    }
  }

  lemma CursorFieldsSingle(f: Field)
    ensures CursorFields([f]) == if IsCursorCandidate(f) then [f.name] else []
  {
    assert [f][1..] == [];
  }

  predicate IsRelationField(f: Field) {
    f.relationName.Some? && f.relationName.value != ""
  }

  /** `fields.some(f => !!f.relationName)`: an empty relation name does not count. */
  function HasRelations(fields: seq<Field>): (r: bool)
    ensures r <==> exists i :: 0 <= i < |fields| && IsRelationField(fields[i])
    decreases |fields|
  {
    if fields == [] then false
    else
      var rest := HasRelations(fields[1..]);
      assert rest <==> exists i :: 1 <= i < |fields| && IsRelationField(fields[i]) by {
        if rest {
          var i :| 0 <= i < |fields[1..]| && IsRelationField(fields[1..][i]);
          assert fields[i + 1] == fields[1..][i];
        }
        if exists i :: 1 <= i < |fields| && IsRelationField(fields[i]) {
          var i :| 1 <= i < |fields| && IsRelationField(fields[i]);
          assert fields[1..][i - 1] == fields[i];
        }
      }
      IsRelationField(fields[0]) || rest
  }

  // ---------------------------------------------------------------------------
  // String helpers
  // ---------------------------------------------------------------------------

  /** `toLowerCase` on one character, for the ASCII letters. */
  function ToLower(c: char): char {
    if 'A' <= c <= 'Z' then (c as int + 32) as char else c
  }

  /** lowerCase(str): `str.substring(0, 1).toLowerCase() + str.substring(1)`. */
  function LowerCase(s: string): (r: string)
    ensures |r| == |s|
    ensures s != [] ==> r[0] == ToLower(s[0]) && r[1..] == s[1..]
    ensures s == [] ==> r == []
  {
    if s == [] then [] else [ToLower(s[0])] + s[1..]
  }

  lemma LowerCaseIdempotent(s: string)
    ensures LowerCase(LowerCase(s)) == LowerCase(s)
  {
  }

  /** quote(str): the empty text for undefined, otherwise `str` in single quotes. */
  function Quote(s: Option<string>): (r: string)
    ensures r == [] <==> s.None?
    ensures s.Some? ==> |r| == |s.value| + 2 && r[0] == '\'' && r[|r| - 1] == '\'' && r[1..|r| - 1] == s.value
  {
    match s
    case None => ""
    case Some(str) => "'" + str + "'"
  }

  /** Different arguments give different quoted texts. */
  lemma QuoteInjective(a: Option<string>, b: Option<string>)
    ensures Quote(a) == Quote(b) ==> a == b
  {
    if Quote(a) == Quote(b) && a.Some? && b.Some? {
      var q := Quote(a);
      assert a.value == q[1..|q| - 1] == b.value;
    }
  }
}
