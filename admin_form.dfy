/** The admin page's knowledge-base form (static/js/admin.js): the submit
    handler turns the form's (name, value) entries into the `newData` object
    it posts to /api/train_ai. A name `main[sub]` sets the sub-key `sub` of a
    nested object under `main`; a plain name gets its value split on ','
    with every piece trimmed. */
module AdminForm {
  import opened Text

  /** A member of `newData`: a nested object built from bracketed names, or
      a list built from a plain name. */
  datatype Field = Nested(entries: map<string, string>) | Items(items: seq<string>)

  type NewData = map<string, Field>

  /** One form entry: the control's name and its value. */
  type Entry = (string, string)

  predicate Bracketed(name: string)
  {
    '[' in name
  }

  /** `name.split('[')[0]`: the text before the first '[' (the whole name
      when it has none). */
  function MainKey(name: string): (k: string)
    ensures '[' !in k
    ensures |k| <= |name| && name[..|k|] == k
    ensures Bracketed(name) ==> |k| < |name| && name[|k|] == '['
    ensures !Bracketed(name) ==> k == name
  {
    JoinSplit(name, '[');
    var parts := Split(name, '[');
    if |parts| == 1 then
      assert Join(parts, "[") == parts[0];
      parts[0]
    else
      assert name == parts[0] + "[" + Join(parts[1..], "[");
      parts[0]
  }

  /** `name.split('[')[1].replace(']', '')`: the text between the first and
      the second '[' with its first ']' removed; anything from a second '['
      on is dropped. */
  function SubKey(name: string): (s: string)
    requires Bracketed(name)
    ensures '[' !in s
  {
    SplitCount(name, '[');
    assert '[' in multiset(name);
    var parts := Split(name, '[');
    RemoveFirst(parts[1], ']')
  }

  /** One pass of the loop over the form entries. A bracketed name creates
      the nested object when `main` is absent and then sets the sub-key; when
      `main` already holds a list, the field is dropped (for most sub-keys
      JavaScript sets a property of the array that `JSON.stringify` does not
      send). A plain name replaces whatever the key held. */
  function Step(data: NewData, entry: Entry): (r: NewData)
    ensures r.Keys == data.Keys + {MainKey(entry.0)}
  {
    var (name, value) := entry;
    if Bracketed(name) then
      var main, sub := MainKey(name), SubKey(name);
      if main !in data then data[main := Nested(map[sub := value])]
      else match data[main]
        case Nested(entries) => data[main := Nested(entries[sub := value])]
        case Items(_) => data
    else data[name := Items(SplitTrimmed(value, ','))]
  }

  /** The object the loop builds from the entries, in order. No key of it
      holds a '['. */
  function Reshape(entries: seq<Entry>): (r: NewData)
    ensures forall k :: k in r ==> '[' !in k
    decreases |entries|
  {
    if |entries| == 0 then map[]
    else Step(Reshape(entries[..|entries| - 1]), entries[|entries| - 1])
  }

  /** The submit handler's loop, `for (let [key, value] of formData.entries())`. */
  method BuildNewData(entries: seq<Entry>) returns (newData: NewData)
    ensures newData == Reshape(entries)
  {
    newData := map[];
    var i := 0;
    while i < |entries|
      invariant 0 <= i <= |entries|
      invariant newData == Reshape(entries[..i])
    {
      var (key, value) := entries[i];
      assert entries[..i + 1][..i] == entries[..i];
      if Bracketed(key) {
        var main, sub := MainKey(key), SubKey(key);
        if main !in newData {
          newData := newData[main := Nested(map[])];
        }
        if newData[main].Nested? {
          newData := newData[main := Nested(newData[main].entries[sub := value])];
        }
      } else {
        newData := newData[key := Items(SplitTrimmed(value, ','))];
      }
      i := i + 1;
    }
    assert entries[..i] == entries;
  }

  /** Whether entry name `name` is the bracketed `main[sub]`. */
  predicate Names(name: string, main: string, sub: string)
  {
    Bracketed(name) && MainKey(name) == main && SubKey(name) == sub
  }

  /** The keys of the object are exactly the plain names and the text before
      the first '[' of the bracketed names. */
  lemma ReshapeKeys(entries: seq<Entry>)
    ensures forall k :: k in Reshape(entries) <==> exists i :: 0 <= i < |entries| && MainKey(entries[i].0) == k
  {
    ReshapeHasMainKeys(entries);
    MainKeysOfNames(entries);
  }

  /** The main keys of the entries' names. */
  function MainKeys(entries: seq<Entry>): set<string>
    decreases |entries|
  {
    if |entries| == 0 then {}
    else MainKeys(entries[..|entries| - 1]) + {MainKey(entries[|entries| - 1].0)}
  }

  lemma {:induction false} ReshapeHasMainKeys(entries: seq<Entry>)
    ensures Reshape(entries).Keys == MainKeys(entries)
    decreases |entries|
  {
    if |entries| > 0 {
      ReshapeHasMainKeys(entries[..|entries| - 1]);
    }
  }

  lemma {:induction false} MainKeysOfNames(entries: seq<Entry>)
    ensures forall k :: k in MainKeys(entries) <==> exists i :: 0 <= i < |entries| && MainKey(entries[i].0) == k
    decreases |entries|
  {
    if |entries| > 0 {
      var n := |entries| - 1;
      var prefix := entries[..n];
      MainKeysOfNames(prefix);
      forall k | k in MainKeys(prefix) ensures exists i :: 0 <= i < |entries| && MainKey(entries[i].0) == k {
        var i :| 0 <= i < n && MainKey(prefix[i].0) == k;
        assert prefix[i] == entries[i];
      }
      forall i | 0 <= i < n ensures MainKey(entries[i].0) in MainKeys(prefix) {
        assert prefix[i] == entries[i];
      }
    }
  }

  /** The last plain entry named c decides the list under c: its value split
      on ',' and trimmed. Later bracketed names under c do not change it. */
  lemma {:induction false} LastPlainFieldWins(entries: seq<Entry>, j: nat)
    requires j < |entries| && !Bracketed(entries[j].0)
    requires forall i :: j < i < |entries| ==> entries[i].0 != entries[j].0
    ensures entries[j].0 in Reshape(entries)
    ensures Reshape(entries)[entries[j].0] == Items(SplitTrimmed(entries[j].1, ','))
    decreases |entries|
  {
    var n := |entries| - 1;
    if j < n {
      LastPlainFieldWins(entries[..n], j);
      assert entries[..n][j] == entries[j];
    }
  }

  /** One step, seen from a key c that the entry does not name plainly: c
      stays a nested object, gaining the entry's sub-key when the entry is
      bracketed under c. */
  lemma NestedStep(before: NewData, entry: Entry, c: string)
    requires entry.0 != c
    requires c in before ==> before[c].Nested?
    ensures var after := Step(before, entry);
      var added := if Bracketed(entry.0) && MainKey(entry.0) == c then {SubKey(entry.0)} else {};
      && (c in after <==> c in before || added != {})
      && (c in after ==> after[c].Nested?)
      && (c in after ==> after[c].entries.Keys == (if c in before then before[c].entries.Keys else {}) + added)
  {
  }

  /** The sub-keys of the bracketed entries under main key c. */
  function SubKeysUnder(entries: seq<Entry>, c: string): set<string>
    decreases |entries|
  {
    if |entries| == 0 then {}
    else
      var n := |entries| - 1;
      var name := entries[n].0;
      SubKeysUnder(entries[..n], c) + (if Bracketed(name) && MainKey(name) == c then {SubKey(name)} else {})
  }

  lemma {:induction false} SubKeysUnderNames(entries: seq<Entry>, c: string)
    ensures forall s :: s in SubKeysUnder(entries, c) <==> exists i :: 0 <= i < |entries| && Names(entries[i].0, c, s)
    decreases |entries|
  {
    if |entries| > 0 {
      var n := |entries| - 1;
      var prefix := entries[..n];
      SubKeysUnderNames(prefix, c);
      forall s ensures s in SubKeysUnder(entries, c) <==> exists i :: 0 <= i < |entries| && Names(entries[i].0, c, s) {
        if exists i :: 0 <= i < |entries| && Names(entries[i].0, c, s) {
          var i :| 0 <= i < |entries| && Names(entries[i].0, c, s);
          if i < n { assert prefix[i] == entries[i]; }
        }
        if s in SubKeysUnder(prefix, c) {
          var i :| 0 <= i < n && Names(prefix[i].0, c, s);
          assert prefix[i] == entries[i];
        }
      }
    }
  }

  /** Where no plain entry is named c, the key c is present as soon as one
      bracketed name has main key c, holds a nested object and is never
      reset: its sub-keys are those of all such names. */
  lemma {:induction false} NestedFieldsCollect(entries: seq<Entry>, c: string)
    requires forall i :: 0 <= i < |entries| ==> entries[i].0 != c
    ensures SubKeysUnder(entries, c) != {} ==> c in Reshape(entries)
    ensures c in Reshape(entries) ==> Reshape(entries)[c].Nested?
    ensures c in Reshape(entries) ==> Reshape(entries)[c].entries.Keys == SubKeysUnder(entries, c)
    decreases |entries|
  {
    if |entries| > 0 {
      var n := |entries| - 1;
      var prefix := entries[..n];
      assert forall i :: 0 <= i < n ==> prefix[i] == entries[i];
      NestedFieldsCollect(prefix, c);
      NestedStep(Reshape(prefix), entries[n], c);
    }
  }

  /** The sub-keys under c, stated on the entries themselves. */
  lemma NestedFieldsAccumulate(entries: seq<Entry>, c: string)
    requires forall i :: 0 <= i < |entries| ==> entries[i].0 != c
    ensures c in Reshape(entries) ==> Reshape(entries)[c].Nested?
    ensures c in Reshape(entries) ==> forall s :: s in Reshape(entries)[c].entries <==>
      exists i :: 0 <= i < |entries| && Names(entries[i].0, c, s)
  {
    NestedFieldsCollect(entries, c);
    SubKeysUnderNames(entries, c);
  }

  /** The last bracketed entry naming `main[sub]` decides that sub-key's
      value, provided no plain entry is named `main`. */
  lemma {:induction false} LastNestedFieldWins(entries: seq<Entry>, j: nat)
    requires j < |entries| && Bracketed(entries[j].0)
    requires forall i :: 0 <= i < |entries| ==> entries[i].0 != MainKey(entries[j].0)
    requires forall i :: j < i < |entries| ==> !Names(entries[i].0, MainKey(entries[j].0), SubKey(entries[j].0))
    ensures var main, sub := MainKey(entries[j].0), SubKey(entries[j].0);
      && main in Reshape(entries) && Reshape(entries)[main].Nested?
      && sub in Reshape(entries)[main].entries
      && Reshape(entries)[main].entries[sub] == entries[j].1
    decreases |entries|
  {
    var n := |entries| - 1;
    var main, sub := MainKey(entries[j].0), SubKey(entries[j].0);
    var before, after := Reshape(entries[..n]), Reshape(entries);
    assert after == Step(before, entries[n]);
    if j < n {
      assert forall i :: 0 <= i < n ==> entries[..n][i] == entries[i];
      LastNestedFieldWins(entries[..n], j);
    } else {
      assert forall i :: 0 <= i < n ==> entries[..n][i].0 != main;
      NestedFieldsAccumulate(entries[..n], main);
    }
  }

  /** A name `main[seg` followed by nothing or by a second '[': the main
      key is `main`, and the sub-key is `seg` with its first ']' removed,
      wherever in `seg` that ']' stands. */
  lemma SubKeySegment(main: string, seg: string, rest: string)
    requires '[' !in main && '[' !in seg
    requires rest == [] || rest[0] == '['
    ensures Bracketed(main + "[" + seg + rest)
    ensures MainKey(main + "[" + seg + rest) == main
    ensures SubKey(main + "[" + seg + rest) == RemoveFirst(seg, ']')
  {
    var name := main + "[" + seg + rest;
    assert name == main + ['['] + (seg + rest);
    SplitAfterPiece(main, '[', seg + rest);
    if rest == [] {
      assert seg + rest == seg;
      SplitNoSeparator(seg, '[');
    } else {
      assert seg + rest == seg + ['['] + rest[1..];
      SplitAfterPiece(seg, '[', rest[1..]);
    }
    assert Split(name, '[')[1] == seg;
  }

  /** `main[sub]`, possibly followed by more bracketed text: the main key
      is `main`, and the sub-key is `sub` when what follows is nothing or a
      second '['. */
  lemma BracketedName(main: string, sub: string, rest: string)
    requires '[' !in main && '[' !in sub && ']' !in sub
    requires rest == [] || rest[0] == '['
    ensures Bracketed(main + "[" + sub + "]" + rest)
    ensures MainKey(main + "[" + sub + "]" + rest) == main
    ensures SubKey(main + "[" + sub + "]" + rest) == sub
  {
    var closed := sub + "]";
    assert main + "[" + sub + "]" + rest == main + "[" + closed + rest;
    SubKeySegment(main, closed, rest);
    assert closed == sub + [']'] + [];
    RemoveFirstAfterPiece(sub, ']', []);
  }

  /** Text between the first ']' and a second '[' stays in the sub-key:
      `main[x]y` has the sub-key `xy`. */
  lemma TextAfterBracketKept(main: string, x: string, y: string)
    requires '[' !in main && '[' !in x && '[' !in y && ']' !in x
    ensures SubKey(main + "[" + x + "]" + y) == x + y
  {
    var seg := x + "]" + y;
    assert main + "[" + x + "]" + y == main + "[" + seg + "";
    SubKeySegment(main, seg, "");
    assert seg == x + [']'] + y;
    RemoveFirstAfterPiece(x, ']', y);
  }

  /** A bracket that is never closed keeps its text: `main[seg` has the
      sub-key `seg`. */
  lemma UnclosedBracket(main: string, seg: string)
    requires '[' !in main && '[' !in seg && ']' !in seg
    ensures SubKey(main + "[" + seg) == seg
  {
    assert main + "[" + seg == main + "[" + seg + "";
    SubKeySegment(main, seg, "");
  }

  /** Only the first ']' is removed: `a[x]y` gives `xy`, `a[b` gives `b`
      and `a[b]]` gives `b]`. */
  lemma SubKeyExamples()
    ensures SubKey("a[x]y") == "xy"
    ensures SubKey("a[b") == "b"
    ensures SubKey("a[b]]") == "b]"
  {
    var first, second, third := "a" + "[" + "x" + "]" + "y", "a" + "[" + "b", "a" + "[" + "b" + "]" + "]";
    assert first == "a[x]y" && second == "a[b" && third == "a[b]]";
    TextAfterBracketKept("a", "x", "y");
    UnclosedBracket("a", "b");
    TextAfterBracketKept("a", "b", "]");
  }

  /** A single field `main[sub]` with value v gives `{main: {sub: v}}`. */
  lemma SingleBracketedField(main: string, sub: string, v: string)
    requires '[' !in main && '[' !in sub && ']' !in sub
    ensures Reshape([(main + "[" + sub + "]", v)]) == map[main := Nested(map[sub := v])]
  {
    var name := main + "[" + sub + "]";
    assert name == main + "[" + sub + "]" + "";
    BracketedName(main, sub, "");
    assert Reshape([(name, v)]) == Step(map[], (name, v));
  }

  /** `a[b]` with value v gives `{a: {b: v}}`. */
  lemma BracketedExample()
    ensures Reshape([("a[b]", "v")]) == map["a" := Nested(map["b" := "v"])]
  {
    var name := "a" + "[" + "b" + "]";
    assert name == "a[b]";
    SingleBracketedField("a", "b", "v");
    assert Reshape([(name, "v")]) == Reshape([("a[b]", "v")]);
  }

  /** A single plain field whose value lists trimmed, comma-free items
      joined by ", " gives those items. */
  lemma SinglePlainField(name: string, items: seq<string>)
    requires !Bracketed(name)
    requires |items| >= 1
    requires forall i :: 0 <= i < |items| ==> ',' !in items[i] && Trimmed(items[i])
    ensures Reshape([(name, Join(items, ", "))]) == map[name := Items(items)]
  {
    SplitTrimmedJoin(items);
    assert Reshape([(name, Join(items, ", "))]) == Step(map[], (name, Join(items, ", ")));
  }

  /** `c` with value "x, y" gives `{c: ["x", "y"]}`. */
  lemma PlainExample()
    ensures Reshape([("c", "x, y")]) == map["c" := Items(["x", "y"])]
  {
    assert Join(["x", "y"], ", ") == "x, y";
    SinglePlainField("c", ["x", "y"]);
  }

  /** An empty value gives a list holding one empty string. */
  lemma EmptyValueExample()
    ensures Reshape([("c", "")]) == map["c" := Items([""])]
  {
    assert SplitTrimmed("", ',') == [""];
    assert Reshape([("c", "")]) == Step(map[], ("c", ""));
  }

  /** Only the segment up to a second '[' is the sub-key. */
  lemma SecondBracketDropped()
    ensures SubKey("a[b][c]") == "b"
  {
    assert "a[b][c]" == "a" + "[" + "b" + "]" + "[c]";
    BracketedName("a", "b", "[c]");
  }
}
