/** The backend's knowledge base (app.py: `fashion_knowledge`) and the
    /api/train_ai update: the check that new data names only known sections
    (`validate_new_data`) and the loop that merges it in place, extending
    list sections and updating dict sections. */
module KnowledgeBase {
  import opened Json

  /** Section name to section value, as loaded from the knowledge file. */
  type Knowledge = map<string, Value>

  /** What a request handler sends back: a JSON message, a 400 with an error
      text, or a 500 from an exception Python raised. */
  datatype Response = Success(message: string) | BadRequest(error: string) | InternalError

  const InvalidDataFormat := "Invalid data format"
  const RetrainedMessage := "AI model updated and retrained successfully"

  /** `validate_new_data`: every key of the new data already names a section. */
  function ValidateNewData(kb: Knowledge, newData: Value): (ok: bool)
    requires IsObject(newData)
    ensures ok <==> forall k :: k in newData.fields ==> k in kb
  {
    forall i | 0 <= i < |newData.keys| :: newData.keys[i] in kb
  }

  /** Python's iteration over a value, which is what `list.extend` consumes:
      the elements of a list, the one-character strings of a string, the keys
      of a dict; anything else raises TypeError (None). */
  function Elements(v: Value): (r: Option<seq<Value>>)
    ensures r.Some? <==> v.Arr? || v.Str? || v.Obj?
    ensures v.Arr? ==> r == Some(v.items)
    ensures v.Str? ==> |r.value| == |v.s| && forall i :: 0 <= i < |v.s| ==> r.value[i] == Str([v.s[i]])
    ensures v.Obj? ==> |r.value| == |v.keys| && forall i :: 0 <= i < |v.keys| ==> r.value[i] == Str(v.keys[i])
  {
    match v
    case Arr(items) => Some(items)
    case Str(s) => Some(seq(|s|, i requires 0 <= i < |s| => Str([s[i]])))
    case Obj(keys, _) => Some(seq(|keys|, i requires 0 <= i < |keys| => Str(keys[i])))
    case _ => None
  }

  /** The keys of `more` that `existing` lacks, in the order of `more`. */
  function NewKeys(existing: seq<string>, more: seq<string>): (r: seq<string>)
    ensures forall k :: k in r <==> k in more && k !in existing
    ensures (forall i, j :: 0 <= i < j < |more| ==> more[i] != more[j]) ==>
      forall i, j :: 0 <= i < j < |r| ==> r[i] != r[j]
  {
    if |more| == 0 then []
    else
      var rest := NewKeys(existing, more[1..]);
      if more[0] in existing then rest else [more[0]] + rest
  }

  /** The new keys of a concatenation are those of its first part followed
      by those of its second part. */
  lemma {:induction false} NewKeysAppend(existing: seq<string>, a: seq<string>, b: seq<string>)
    ensures NewKeys(existing, a + b) == NewKeys(existing, a) + NewKeys(existing, b)
    decreases |a|
  {
    if |a| > 0 {
      assert (a + b)[0] == a[0] && (a + b)[1..] == a[1..] + b;
      NewKeysAppend(existing, a[1..], b);
    } else {
      assert a + b == b;
    }
  }

  /** The new keys keep the order they have in `more`: of two keys of `more`
      that `existing` lacks, the earlier one is among the new keys taken
      from before the later one, which comes right after them. */
  lemma NewKeysKeepOrder(existing: seq<string>, more: seq<string>, p: nat, q: nat)
    requires p < q < |more| && more[p] !in existing && more[q] !in existing
    ensures var r, front := NewKeys(existing, more), NewKeys(existing, more[..q]);
      && more[p] in front
      && |front| < |r| && r[..|front|] == front && r[|front|] == more[q]
  {
    var front, back := more[..q], more[q..];
    assert more == front + back;
    NewKeysAppend(existing, front, back);
    assert front[p] == more[p];
    assert back[0] == more[q];
  }

  /** Two lists without repetition and without a common element. */
  lemma DistinctConcat(a: seq<string>, b: seq<string>)
    requires Distinct(a) && Distinct(b)
    requires forall k :: k in b ==> k !in a
    ensures Distinct(a + b)
  {
    var c := a + b;
    forall i, j | 0 <= i < j < |c| ensures c[i] != c[j] {
      if j < |a| {
        assert c[i] == a[i] && c[j] == a[j];
      } else if i < |a| {
        assert c[i] == a[i] && c[j] == b[j - |a|] && b[j - |a|] in b;
      } else {
        assert c[i] == b[i - |a|] && c[j] == b[j - |a|];
      }
    }
  }

  /** Python's `dict.update` with a dict argument: the values of `incoming`
      win, the existing keys keep their places and the new keys follow in
      the order `incoming` has them. */
  function UpdateObject(current: Value, incoming: Value): (r: Value)
    requires IsObject(current) && IsObject(incoming)
    ensures IsObject(r)
    ensures r.fields == current.fields + incoming.fields
    ensures |current.keys| <= |r.keys| && r.keys[..|current.keys|] == current.keys
    ensures r.keys[|current.keys|..] == NewKeys(current.keys, incoming.keys)
  {
    var added := NewKeys(current.keys, incoming.keys);
    DistinctConcat(current.keys, added);
    Obj(current.keys + added, current.fields + incoming.fields)
  }

  /** `dict.update` appends the keys the dict lacks after its own keys, in
      the order the incoming dict has them. */
  lemma UpdateKeepsIncomingOrder(current: Value, incoming: Value, p: nat, q: nat)
    requires IsObject(current) && IsObject(incoming)
    requires p < q < |incoming.keys|
    requires incoming.keys[p] !in current.fields && incoming.keys[q] !in current.fields
    ensures var r, n := UpdateObject(current, incoming).keys, |current.keys|;
      var front := NewKeys(current.keys, incoming.keys[..q]);
      && incoming.keys[p] in front
      && n + |front| < |r| && r[n + |front|] == incoming.keys[q]
      && forall i :: 0 <= i < |front| ==> r[n + i] == front[i]
  {
    var n, added := |current.keys|, NewKeys(current.keys, incoming.keys);
    var r := UpdateObject(current, incoming).keys;
    assert r[n..] == added;
    NewKeysKeepOrder(current.keys, incoming.keys, p, q);
    var front := NewKeys(current.keys, incoming.keys[..q]);
    forall i | 0 <= i <= |front| ensures r[n + i] == added[i] {
      assert r[n..][i] == added[i];
    }
  }

  /** Whether merging raises: a list section with a value Python cannot
      iterate, or a dict section with a value that is not a dict. */
  predicate CannotMerge(current: Value, incoming: Value)
  {
    || (current.Arr? && !(incoming.Arr? || incoming.Str? || incoming.Obj?))
    || (current.Obj? && !incoming.Obj?)
  }

  /** One pass of the loop body of `train_ai` on one section: a list section
      is extended, a dict section is updated, any other section is left
      alone. None is the TypeError Python raises when the new value cannot
      be iterated (for a list) or is not a dict (for a dict). */
  function MergeValue(current: Value, incoming: Value): (r: Option<Value>)
    requires current.Obj? ==> IsObject(current)
    requires incoming.Obj? ==> IsObject(incoming)
    ensures r.None? <==> CannotMerge(current, incoming)
    ensures current.Arr? && r.Some? ==>
      && r.value.Arr?
      && |current.items| <= |r.value.items|
      && r.value.items[..|current.items|] == current.items
      && r.value.items[|current.items|..] == Elements(incoming).value
    ensures current.Obj? && r.Some? ==>
      && IsObject(r.value)
      && r.value.fields == current.fields + incoming.fields
      && |current.keys| <= |r.value.keys|
      && r.value.keys[..|current.keys|] == current.keys
      && r.value.keys[|current.keys|..] == NewKeys(current.keys, incoming.keys)
    ensures !current.Arr? && !current.Obj? ==> r == Some(current)
  {
    match current
    case Arr(items) =>
      (match Elements(incoming)
       case None => None
       case Some(more) => Some(Arr(items + more)))
    case Obj(_, _) =>
      if incoming.Obj? then Some(UpdateObject(current, incoming)) else None
    case _ => Some(current)
  }

  /** Every object inside the knowledge base is well formed. */
  ghost predicate WellFormed(kb: Knowledge)
  {
    forall k :: k in kb && kb[k].Obj? ==> IsObject(kb[k])
  }

  /** Every object value of a new-data object is well formed. */
  ghost predicate WellFormedFields(fields: map<string, Value>)
  {
    forall k :: k in fields && fields[k].Obj? ==> IsObject(fields[k])
  }

  /** The loop body for one key: a key the knowledge base lacks is skipped;
      false when Python raises. */
  function MergeStep(kb: Knowledge, key: string, value: Value): (r: (Knowledge, bool))
    requires WellFormed(kb) && (value.Obj? ==> IsObject(value))
    ensures WellFormed(r.0) && r.0.Keys == kb.Keys
    ensures forall k :: k in kb && k != key ==> r.0[k] == kb[k]
    ensures r.1 <==> !(key in kb && CannotMerge(kb[key], value))
    ensures key in kb && r.1 ==> r.0[key] == MergeValue(kb[key], value).value
    ensures !r.1 ==> r.0 == kb
  {
    if key !in kb then (kb, true)
    else
      match MergeValue(kb[key], value)
      case None => (kb, false)
      case Some(v) => (kb[key := v], true)
  }

  /** The loop over the keys in order; an exception ends it and keeps the
      updates made before it, since the loop changes the dict in place. */
  function MergeKeys(kb: Knowledge, keys: seq<string>, fields: map<string, Value>): (r: (Knowledge, bool))
    requires WellFormed(kb) && WellFormedFields(fields)
    requires forall i :: 0 <= i < |keys| ==> keys[i] in fields
    ensures WellFormed(r.0)
    ensures r.0.Keys == kb.Keys
    decreases |keys|
  {
    if |keys| == 0 then (kb, true)
    else
      var last := keys[|keys| - 1];
      var (m, ok) := MergeKeys(kb, keys[..|keys| - 1], fields);
      if !ok then (m, false) else MergeStep(m, last, fields[last])
  }

  /** Whether the loop would raise at `key`, judged on the original knowledge
      base (each key comes up once, so its section is still the original). */
  predicate Fails(kb: Knowledge, key: string, fields: map<string, Value>)
    requires WellFormed(kb) && WellFormedFields(fields) && key in fields
  {
    key in kb && CannotMerge(kb[key], fields[key])
  }

  /** The index of the first key at which the merge raises, or |keys|. */
  function FirstFailure(kb: Knowledge, keys: seq<string>, fields: map<string, Value>): (j: nat)
    requires WellFormed(kb) && WellFormedFields(fields)
    requires forall i :: 0 <= i < |keys| ==> keys[i] in fields
    ensures j <= |keys|
    ensures forall i :: 0 <= i < j ==> !Fails(kb, keys[i], fields)
    ensures j < |keys| ==> Fails(kb, keys[j], fields)
    decreases |keys|
  {
    if |keys| == 0 then 0
    else
      var n := |keys| - 1;
      var j := FirstFailure(kb, keys[..n], fields);
      assert forall i :: 0 <= i < n ==> keys[..n][i] == keys[i];
      if j < n then j else if Fails(kb, keys[n], fields) then n else n + 1
  }

  predicate Distinct(keys: seq<string>)
  {
    forall i, j :: 0 <= i < j < |keys| ==> keys[i] != keys[j]
  }

  /** The section a key's merge produces, for a key that does not fail. */
  function MergedSection(kb: Knowledge, key: string, fields: map<string, Value>): Value
    requires WellFormed(kb) && WellFormedFields(fields) && key in fields && key in kb
    requires !Fails(kb, key, fields)
  {
    MergeValue(kb[key], fields[key]).value
  }

  /** The merge loop adds and removes no section and leaves every section
      whose name is not among the keys alone. */
  lemma {:induction false} MergeKeysFrame(kb: Knowledge, keys: seq<string>, fields: map<string, Value>)
    requires WellFormed(kb) && WellFormedFields(fields)
    requires forall i :: 0 <= i < |keys| ==> keys[i] in fields
    ensures forall k :: k in kb && k !in keys ==> MergeKeys(kb, keys, fields).0[k] == kb[k]
    decreases |keys|
  {
    if |keys| > 0 {
      var n := |keys| - 1;
      MergeKeysFrame(kb, keys[..n], fields);
      forall k | k in kb && k !in keys ensures k !in keys[..n] && k != keys[n] { }
    }
  }

  /** The facts of one more key that every part of the merge proof uses. */
  lemma MergeKeysLast(kb: Knowledge, keys: seq<string>, fields: map<string, Value>)
    requires WellFormed(kb) && WellFormedFields(fields)
    requires forall i :: 0 <= i < |keys| ==> keys[i] in fields
    requires Distinct(keys) && |keys| > 0
    ensures var n := |keys| - 1;
      var (m, ok0) := MergeKeys(kb, keys[..n], fields);
      var (r, ok) := MergeKeys(kb, keys, fields);
      && Distinct(keys[..n])
      && (forall i :: 0 <= i < n ==> keys[..n][i] == keys[i])
      && (keys[n] in kb ==> m[keys[n]] == kb[keys[n]])
      && (ok <==> ok0 && !Fails(kb, keys[n], fields))
      && (forall k :: k in m && k != keys[n] ==> r[k] == m[k])
      && (!ok ==> r == m)
      && (keys[n] in kb && ok ==> r[keys[n]] == MergedSection(kb, keys[n], fields))
  {
    var n := |keys| - 1;
    var pre, last := keys[..n], keys[n];
    assert forall i :: 0 <= i < n ==> pre[i] == keys[i];
    assert Distinct(pre);
    assert last !in pre;
    MergeKeysFrame(kb, pre, fields);
    assert keys[..n + 1] == keys;
    MergeKeysPrefix(kb, keys, fields, n);
  }

  /** One more key moves the first failure only when none came before:
      to that key when it fails, past it otherwise. */
  lemma FirstFailureLast(kb: Knowledge, keys: seq<string>, fields: map<string, Value>)
    requires WellFormed(kb) && WellFormedFields(fields)
    requires forall i :: 0 <= i < |keys| ==> keys[i] in fields
    requires |keys| > 0
    ensures var n, j, j0 := |keys| - 1, FirstFailure(kb, keys, fields), FirstFailure(kb, keys[..|keys| - 1], fields);
      && (j < n ==> j0 == j)
      && (n <= j ==> j0 == n && (j == n <==> Fails(kb, keys[n], fields)))
  {
  }

  /** The merge loop succeeds exactly when no key fails. */
  lemma {:induction false} MergeKeysOk(kb: Knowledge, keys: seq<string>, fields: map<string, Value>)
    requires WellFormed(kb) && WellFormedFields(fields)
    requires forall i :: 0 <= i < |keys| ==> keys[i] in fields
    requires Distinct(keys)
    ensures MergeKeys(kb, keys, fields).1 <==> FirstFailure(kb, keys, fields) == |keys|
    decreases |keys|
  {
    if |keys| > 0 {
      MergeKeysLast(kb, keys, fields);
      FirstFailureLast(kb, keys, fields);
      MergeKeysOk(kb, keys[..|keys| - 1], fields);
    }
  }

  /** The sections before the first failing key are merged. */
  lemma {:induction false} MergeKeysMerged(kb: Knowledge, keys: seq<string>, fields: map<string, Value>)
    requires WellFormed(kb) && WellFormedFields(fields)
    requires forall i :: 0 <= i < |keys| ==> keys[i] in fields
    requires Distinct(keys)
    ensures forall i :: 0 <= i < FirstFailure(kb, keys, fields) && keys[i] in kb ==>
      MergeKeys(kb, keys, fields).0[keys[i]] == MergedSection(kb, keys[i], fields)
    decreases |keys|
  {
    if |keys| > 0 {
      var n := |keys| - 1;
      var pre := keys[..n];
      MergeKeysLast(kb, keys, fields);
      FirstFailureLast(kb, keys, fields);
      MergeKeysMerged(kb, pre, fields);
      MergeKeysOk(kb, pre, fields);
      var m, r := MergeKeys(kb, pre, fields).0, MergeKeys(kb, keys, fields).0;
      var j, j0 := FirstFailure(kb, keys, fields), FirstFailure(kb, pre, fields);
      forall i | 0 <= i < j && keys[i] in kb
        ensures r[keys[i]] == MergedSection(kb, keys[i], fields)
      {
        if i < n {
          assert pre[i] == keys[i] && keys[i] != keys[n];
          assert i < j0;
        } else {
          assert j0 == n && !Fails(kb, keys[n], fields);
          assert MergeKeys(kb, keys, fields).1;
        }
      }
    }
  }

  /** The failing section and all after it keep their old values. */
  lemma {:induction false} MergeKeysUntouched(kb: Knowledge, keys: seq<string>, fields: map<string, Value>)
    requires WellFormed(kb) && WellFormedFields(fields)
    requires forall i :: 0 <= i < |keys| ==> keys[i] in fields
    requires Distinct(keys)
    ensures forall i :: FirstFailure(kb, keys, fields) <= i < |keys| && keys[i] in kb ==>
      MergeKeys(kb, keys, fields).0[keys[i]] == kb[keys[i]]
    decreases |keys|
  {
    if |keys| > 0 {
      var n := |keys| - 1;
      var pre := keys[..n];
      MergeKeysLast(kb, keys, fields);
      MergeKeysUntouched(kb, pre, fields);
      MergeKeysOk(kb, pre, fields);
      var m, r := MergeKeys(kb, pre, fields).0, MergeKeys(kb, keys, fields).0;
      var j, j0 := FirstFailure(kb, keys, fields), FirstFailure(kb, pre, fields);
      FirstFailureLast(kb, keys, fields);
      forall i | j <= i < |keys| && keys[i] in kb
        ensures r[keys[i]] == kb[keys[i]]
      {
        if i < n {
          assert pre[i] == keys[i] && keys[i] != keys[n];
          assert j < n && j0 == j;
          assert m[pre[i]] == kb[pre[i]];
        } else {
          assert !MergeKeys(kb, keys, fields).1;
          assert r == m;
        }
      }
    }
  }

  /** The merge loop succeeds exactly when no key fails; the sections before
      the first failing key are merged, the failing one and all after it keep
      their old values. */
  lemma MergeKeysSpec(kb: Knowledge, keys: seq<string>, fields: map<string, Value>)
    requires WellFormed(kb) && WellFormedFields(fields)
    requires forall i :: 0 <= i < |keys| ==> keys[i] in fields
    requires Distinct(keys)
    ensures MergeKeys(kb, keys, fields).1 <==> FirstFailure(kb, keys, fields) == |keys|
    ensures forall i :: 0 <= i < FirstFailure(kb, keys, fields) && keys[i] in kb ==>
      MergeKeys(kb, keys, fields).0[keys[i]] == MergedSection(kb, keys[i], fields)
    ensures forall i :: FirstFailure(kb, keys, fields) <= i < |keys| && keys[i] in kb ==>
      MergeKeys(kb, keys, fields).0[keys[i]] == kb[keys[i]]
  {
    MergeKeysOk(kb, keys, fields);
    MergeKeysMerged(kb, keys, fields);
    MergeKeysUntouched(kb, keys, fields);
  }

  /** `train_ai`'s merge of a whole new-data object. */
  function Merge(kb: Knowledge, newData: Value): (r: (Knowledge, bool))
    requires WellFormed(kb) && IsObject(newData) && WellFormedFields(newData.fields)
    ensures WellFormed(r.0) && r.0.Keys == kb.Keys
  {
    MergeKeys(kb, newData.keys, newData.fields)
  }

  /** The merge, stated on whole objects. A list section gets the new values
      after its old elements, which keep their order; a dict section gets
      the new entries, which overwrite old ones; other sections and sections
      the new data does not mention are unchanged; no section is added. */
  lemma MergeSpec(kb: Knowledge, newData: Value)
    requires WellFormed(kb) && IsObject(newData) && WellFormedFields(newData.fields)
    ensures var (r, ok) := Merge(kb, newData);
      && r.Keys == kb.Keys
      && (forall k :: k in kb && k !in newData.fields ==> r[k] == kb[k])
      && (ok <==> forall k :: k in newData.fields && k in kb ==> MergeValue(kb[k], newData.fields[k]).Some?)
      && (ok ==> forall k :: k in newData.fields && k in kb ==> r[k] == MergeValue(kb[k], newData.fields[k]).value)
  {
    var keys, fields := newData.keys, newData.fields;
    MergeKeysSpec(kb, keys, fields);
    MergeKeysFrame(kb, keys, fields);
    var j := FirstFailure(kb, keys, fields);
    if j < |keys| {
      assert keys[j] in fields && keys[j] in kb && MergeValue(kb[keys[j]], fields[keys[j]]).None?;
    } else {
      forall k | k in fields && k in kb ensures MergeValue(kb[k], fields[k]).Some? {
        var i :| 0 <= i < |keys| && keys[i] == k;
        assert !Fails(kb, keys[i], fields);
      }
      forall k | k in fields && k in kb
        ensures Merge(kb, newData).0[k] == MergeValue(kb[k], fields[k]).value
      {
        var i :| 0 <= i < |keys| && keys[i] == k;
      }
    }
  }

  /** The backend's mutable knowledge base. */
  class KnowledgeStore {
    var data: Knowledge

    /** The knowledge file as loaded at start-up. */
    constructor (initial: Knowledge)
      requires WellFormed(initial)
      ensures data == initial && WellFormed(data)
    {
      data := initial;
    }

    /** /api/train_ai. New data that is not a dict makes Python raise (a
        500) before anything changes; new data naming an unknown section is
        refused with a 400 and nothing changes; otherwise the sections are
        merged in place, key by key, and a key whose value cannot be merged
        raises (a 500) after the earlier keys have been merged. After a
        complete merge the handler saves the knowledge file and retrains the
        model; `retrained` says whether those steps finished without raising
        (they are file I/O and model training, outside this model). When
        they raise, the reply is a 500 but the merged sections stay in
        memory. */
    method TrainAi(newData: Value, retrained: bool) returns (response: Response)
      requires WellFormed(data)
      requires newData.Obj? ==> IsObject(newData) && WellFormedFields(newData.fields)
      modifies this
      ensures WellFormed(data)
      ensures !newData.Obj? ==> response == InternalError && data == old(data)
      ensures newData.Obj? && !ValidateNewData(old(data), newData) ==>
        response == BadRequest(InvalidDataFormat) && data == old(data)
      ensures newData.Obj? && ValidateNewData(old(data), newData) ==>
        && data == Merge(old(data), newData).0
        && response == (if Merge(old(data), newData).1 && retrained then Success(RetrainedMessage) else InternalError)
    {
      if !newData.Obj? {
        return InternalError;
      }
      if !ValidateNewData(data, newData) {
        return BadRequest(InvalidDataFormat);
      }
      ghost var start := data;
      var keys, fields := newData.keys, newData.fields;
      var i, ok := 0, true;
      while i < |keys| && ok
        invariant 0 <= i <= |keys|
        invariant WellFormed(data)
        invariant (data, ok) == MergeKeys(start, keys[..i], fields)
      {
        var key := keys[i];
        MergeKeysPrefix(start, keys, fields, i);
        if key in data {
          var merged := MergeValue(data[key], fields[key]);
          if merged.None? {
            ok := false;
          } else {
            data := data[key := merged.value];
          }
        }
        i := i + 1;
      }
      MergeStopped(start, keys, fields, i);
      response := if ok && retrained then Success(RetrainedMessage) else InternalError;
    }
  }

  /** The loop over one more key of the same list is one more step, unless
      it has already raised. */
  lemma MergeKeysPrefix(kb: Knowledge, keys: seq<string>, fields: map<string, Value>, i: nat)
    requires WellFormed(kb) && WellFormedFields(fields)
    requires forall k :: 0 <= k < |keys| ==> keys[k] in fields
    requires i < |keys|
    ensures var (m, ok) := MergeKeys(kb, keys[..i], fields);
      MergeKeys(kb, keys[..i + 1], fields) == if ok then MergeStep(m, keys[i], fields[keys[i]]) else (m, false)
  {
    assert keys[..i + 1][..i] == keys[..i];
  }

  /** Once the loop has raised, the later keys change nothing more. */
  lemma {:induction false} MergeStopped(kb: Knowledge, keys: seq<string>, fields: map<string, Value>, i: nat)
    requires WellFormed(kb) && WellFormedFields(fields)
    requires forall k :: 0 <= k < |keys| ==> keys[k] in fields
    requires i <= |keys|
    requires i < |keys| ==> !MergeKeys(kb, keys[..i], fields).1
    ensures MergeKeys(kb, keys, fields) == MergeKeys(kb, keys[..i], fields)
    decreases |keys| - i
  {
    if i < |keys| {
      MergeKeysPrefix(kb, keys, fields, i);
      MergeStopped(kb, keys, fields, i + 1);
    } else {
      assert keys[..i] == keys;
    }
  }
}
