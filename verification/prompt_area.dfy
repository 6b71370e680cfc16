/**
 * The prompt composer: the topic text, a map from option-field id to its
 * text for the option fields the user has opened, and the add-option menu.
 * Rendering, icons, focus and textarea resizing are not modelled.
 */
module PromptArea {

  import opened Optional
  import opened JsText

  datatype OptionField = OptionField(id: string, name: string)

  /** The option fields the composer offers, in display order. */
  const OptionFields: seq<OptionField> := [
    OptionField("keywords", "키워드"),
    OptionField("critique", "나의 비평"),
    OptionField("reference_materials", "참고 자료"),
    OptionField("sources", "출처")
  ]

  datatype Composer = Composer(value: string, activeFields: map<string, string>, menuOpen: bool)

  /** What `onSubmit` receives. */
  datatype Submission = Submission(prompt: string, options: map<string, string>)

  /** `m` and `m'` agree on every key other than `k`: same presence, same value. */
  ghost predicate AgreeExcept(m: map<string, string>, m': map<string, string>, k: string) {
    forall j | j != k :: (j in m <==> j in m') && (j in m ==> m[j] == m'[j])
  }

  // ---------------------------------------------------------------------------
  // Editing the option fields
  // ---------------------------------------------------------------------------

  /** Opens field `id` with empty text and closes the menu. */
  function AddField(c: Composer, id: string): (d: Composer)
    ensures id in d.activeFields && d.activeFields[id] == ""
    ensures AgreeExcept(c.activeFields, d.activeFields, id)
    ensures !d.menuOpen && d.value == c.value
  {
    c.(activeFields := c.activeFields[id := ""], menuOpen := false)
  }

  /** Closes field `id`, dropping its text; closing a field that is not open changes nothing. */
  function RemoveField(c: Composer, id: string): (d: Composer)
    ensures id !in d.activeFields
    ensures AgreeExcept(c.activeFields, d.activeFields, id)
    ensures d.menuOpen == c.menuOpen && d.value == c.value
    ensures id !in c.activeFields ==> d == c
  {
    c.(activeFields := c.activeFields - {id})
  }

  /** Sets the text of field `id`. */
  function UpdateField(c: Composer, id: string, v: string): (d: Composer)
    ensures id in d.activeFields && d.activeFields[id] == v
    ensures AgreeExcept(c.activeFields, d.activeFields, id)
    ensures d.menuOpen == c.menuOpen && d.value == c.value
  {
    c.(activeFields := c.activeFields[id := v])
  }

  /** The send button is enabled when the topic has a non-whitespace character and the composer is not disabled. */
  function HasValue(c: Composer, disabled: bool): (r: bool)
    ensures r <==> !IsBlank(c.value) && !disabled
  {
    TrimEmptyIffBlank(c.value);
    |Trim(c.value)| > 0 && !disabled
  }

  // ---------------------------------------------------------------------------
  // Active and available fields
  // ---------------------------------------------------------------------------

  /** `xs` is `ys` with some elements left out, the rest in the same order. */
  predicate IsSubsequence<T(==)>(xs: seq<T>, ys: seq<T>)
    decreases |ys|
  {
    if |xs| == 0 then true
    else if |ys| == 0 then false
    else if xs[0] == ys[0] then IsSubsequence(xs[1..], ys[1..])
    else IsSubsequence(xs, ys[1..])
  }

  /** The fields of `fs`, in order, that are open (`open == true`) or not open (`open == false`) in `active`. */
  function FieldsWhere(fs: seq<OptionField>, active: map<string, string>, open: bool): (r: seq<OptionField>)
    ensures forall i | 0 <= i < |r| :: (r[i].id in active) == open
    ensures IsSubsequence(r, fs)
    decreases |fs|
  {
    if |fs| == 0 then []
    else
      var rest := FieldsWhere(fs[1..], active, open);
      if (fs[0].id in active) == open then
        var r := [fs[0]] + rest;
        assert r[1..] == rest;
        r
      else
        assert |rest| > 0 ==> rest[0] != fs[0];
        rest
  }

  /** The fields the menu still offers. */
  function AvailableFields(c: Composer): seq<OptionField> {
    FieldsWhere(OptionFields, c.activeFields, false)
  }

  /** The fields shown open, with their text boxes. */
  function ActiveFieldList(c: Composer): seq<OptionField> {
    FieldsWhere(OptionFields, c.activeFields, true)
  }

  /** Open and not-open fields split `fs` exactly: every element lands in one part, as often as it occurs in `fs`. */
  lemma {:induction false} FieldsWhereSplits(fs: seq<OptionField>, active: map<string, string>)
    ensures multiset(FieldsWhere(fs, active, true)) + multiset(FieldsWhere(fs, active, false)) == multiset(fs)
    decreases |fs|
  {
    if |fs| > 0 {
      var t, f := FieldsWhere(fs[1..], active, true), FieldsWhere(fs[1..], active, false);
      FieldsWhereSplits(fs[1..], active);
      assert multiset(fs) == multiset([fs[0]]) + multiset(fs[1..]) by {
        assert fs == [fs[0]] + fs[1..];
      }
      if fs[0].id in active {
        assert FieldsWhere(fs, active, true) == [fs[0]] + t;
        assert multiset([fs[0]] + t) == multiset([fs[0]]) + multiset(t);
        assert FieldsWhere(fs, active, false) == f;
      } else {
        assert FieldsWhere(fs, active, true) == t;
        assert FieldsWhere(fs, active, false) == [fs[0]] + f;
        assert multiset([fs[0]] + f) == multiset([fs[0]]) + multiset(f);
      }
    }
  }

  /** The two filters split `fs` into disjoint parts that together hold every element of `fs`. */
  lemma FieldsWherePartition(fs: seq<OptionField>, active: map<string, string>)
    ensures forall f | f in FieldsWhere(fs, active, false) :: f !in FieldsWhere(fs, active, true)
    ensures forall f :: f in fs <==> f in FieldsWhere(fs, active, false) || f in FieldsWhere(fs, active, true)
  {
    var a, b := FieldsWhere(fs, active, false), FieldsWhere(fs, active, true);
    FieldsWhereSplits(fs, active);
    forall f | f in a ensures f !in b {
      var i :| 0 <= i < |a| && a[i] == f;
    }
    forall f ensures f in fs <==> f in a || f in b {
      assert f in fs <==> f in multiset(fs);
      assert f in a <==> f in multiset(a);
      assert f in b <==> f in multiset(b);
    }
  }

  /**
   * The menu's fields and the open fields partition the option fields: no
   * field is in both, each option field is in one, and each keeps the
   * option fields' order.
   */
  lemma AvailableAndActivePartition(c: Composer)
    ensures forall f | f in AvailableFields(c) :: f !in ActiveFieldList(c)
    ensures forall f :: f in OptionFields <==> f in AvailableFields(c) || f in ActiveFieldList(c)
    ensures multiset(AvailableFields(c)) + multiset(ActiveFieldList(c)) == multiset(OptionFields)
    ensures IsSubsequence(AvailableFields(c), OptionFields) && IsSubsequence(ActiveFieldList(c), OptionFields)
  {
    FieldsWhereSplits(OptionFields, c.activeFields);
    FieldsWherePartition(OptionFields, c.activeFields);
  }

  // ---------------------------------------------------------------------------
  // Submitting
  // ---------------------------------------------------------------------------

  /** The open fields that hold a non-whitespace character, each with its text trimmed. */
  function FilledOptions(active: map<string, string>): (r: map<string, string>)
    ensures forall k :: k in r <==> k in active && !IsBlank(active[k])
    ensures forall k | k in r :: r[k] == Trim(active[k]) && r[k] != ""
  {
    assert forall k | k in active :: (Trim(active[k]) == "" <==> IsBlank(active[k])) by {
      forall k | k in active ensures Trim(active[k]) == "" <==> IsBlank(active[k]) {
        TrimEmptyIffBlank(active[k]);
      }
    }
    map k | k in active && Trim(active[k]) != "" :: Trim(active[k])
  }

  /** The loop over the open fields' entries that builds the submitted options. */
  method CollectFilledOptions(active: map<string, string>) returns (filled: map<string, string>)
    ensures filled == FilledOptions(active)
  {
    filled := map[];
    var todo := active.Keys;
    while todo != {}
      invariant todo <= active.Keys
      invariant forall j :: j in filled <==> j in active && j !in todo && Trim(active[j]) != ""
      invariant forall j | j in filled :: filled[j] == Trim(active[j])
      decreases todo
    {
      var k :| k in todo;
      var v := Trim(active[k]);
      if v != "" {
        filled := filled[k := v];
      }
      todo := todo - {k};
    }
    var spec := FilledOptions(active);
    assert filled.Keys == spec.Keys by {
      forall j ensures j in filled <==> j in spec {
        if j in active { TrimEmptyIffBlank(active[j]); }
      }
    }
  }

  /** The send action: nothing unless the topic has a non-whitespace character; the composer's `disabled` flag is not consulted. */
  function HandleSubmit(c: Composer): (r: Option<Submission>)
    ensures r.None? <==> IsBlank(c.value)
    ensures r.Some? ==> && r.value.prompt == Trim(c.value) && r.value.prompt != "" && IsTrimmed(r.value.prompt)
                        && r.value.options == FilledOptions(c.activeFields)
  {
    TrimEmptyIffBlank(c.value);
    if Trim(c.value) == "" then None else Some(Submission(Trim(c.value), FilledOptions(c.activeFields)))
  }

  /** Enter without Shift sends; every other key sends nothing. */
  function KeyDown(c: Composer, key: string, shift: bool): (r: Option<Submission>)
    ensures r.Some? <==> key == "Enter" && !shift && !IsBlank(c.value)
    ensures r.Some? ==> r == HandleSubmit(c)
  {
    if key == "Enter" && !shift then HandleSubmit(c) else None
  }
}
