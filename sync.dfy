/** The pure rules of the form-state synchroniser: how a control's value is extracted into the
    state, when a change is reported, how an external partial state is merged, and how the state
    is written back onto a control. */
module Sync {
  import opened FormValues

  /** The four branches the synchroniser dispatches on. */
  datatype Kind = MultiCheckbox | Checkbox | Radio | Other

  /** What the synchroniser reads and writes of a control: `type`, `name`, `checked`, `value`. */
  datatype ControlView = ControlView(inputType: string, name: string, checked: bool, value: string)

  /** `s.endsWith(suffix)`. */
  predicate EndsWith(s: string, suffix: string)
  {
    |suffix| <= |s| && s[|s| - |suffix|..] == suffix
  }

  lemma EndsWithMeansSuffix(s: string, suffix: string)
    ensures EndsWith(s, suffix) <==> exists p :: p + suffix == s
  {
    if EndsWith(s, suffix) {
      var p := s[..|s| - |suffix|];
      assert p + suffix == s;
    }
    if p :| p + suffix == s {
      assert s[|s| - |suffix|..] == suffix;
    }
  }

  /** A checkbox whose name ends in `[]` holds one entry of a list-valued field. */
  function KindOf(c: ControlView): Kind
  {
    if c.inputType == "checkbox" && EndsWith(c.name, "[]") then MultiCheckbox
    else if c.inputType == "checkbox" then Checkbox
    else if c.inputType == "radio" then Radio
    else Other
  }

  // ---------------------------------------------------------------------------
  // Extraction

  /** The value stored at `state[c.name]` after extracting `c`, given what was stored there. */
  function Extracted(stored: Option<Value>, c: ControlView): Value
  {
    match KindOf(c)
    case MultiCheckbox =>
      var base := ListOr(stored);
      List(if c.checked then AddUnique(base, c.value) else Without(base, c.value))
    case Checkbox => Bool(c.checked)
    case Radio => Str(if c.checked then c.value else "")
    case Other => Str(c.value)
  }

  /** Every list in the state is free of duplicates. */
  ghost predicate ListsDistinct(state: State)
  {
    forall k :: k in state && state[k].List? ==> NoDuplicates(state[k].items)
  }

  /** The state after `#updateState` has extracted `c`: only `state[c.name]` changes. */
  function Extract(state: State, c: ControlView): (r: State)
    ensures r.Keys == state.Keys + {c.name}
    ensures forall k :: k in state && k != c.name ==> r[k] == state[k]
  {
    state[c.name := Extracted(Lookup(state, c.name), c)]
  }

  /** Extraction keeps every list in the state free of duplicates. */
  lemma ExtractKeepsListsDistinct(state: State, c: ControlView)
    requires ListsDistinct(state)
    ensures ListsDistinct(Extract(state, c))
  {
    var base := ListOr(Lookup(state, c.name));
    assert NoDuplicates(base);
    WithoutKeepsDistinct(base, c.value);
  }

  /** A multi-checkbox stores a list that holds its value exactly when it is checked and
      otherwise agrees with the stored list on every other value; every other kind overwrites
      the entry with a value that does not depend on what was stored. */
  lemma ExtractByKind(state: State, other: State, c: ControlView)
    ensures Extract(state, c)[c.name].List? <==> KindOf(c) == MultiCheckbox
    ensures KindOf(c) == MultiCheckbox ==> var items := Extract(state, c)[c.name].items;
      && (c.value in items <==> c.checked)
      && forall y :: y != c.value ==> (y in items <==> y in ListOr(Lookup(state, c.name)))
    ensures KindOf(c) != MultiCheckbox ==> Extract(state, c)[c.name] == Extract(other, c)[c.name]
    ensures KindOf(c) == Checkbox ==> Extract(state, c)[c.name] == Bool(c.checked)
    ensures KindOf(c) == Radio ==> Extract(state, c)[c.name] == Str(if c.checked then c.value else "")
    ensures KindOf(c) == Other ==> Extract(state, c)[c.name] == Str(c.value)
  {
  }

  /** Checking a multi-checkbox appends its value at the end when it is absent and otherwise
      leaves the list as it is; a missing (or falsy) entry starts as the empty list. */
  lemma CheckAppends(state: State, c: ControlView)
    requires KindOf(c) == MultiCheckbox && c.checked
    ensures var old_ := ListOr(Lookup(state, c.name));
      Extract(state, c)[c.name] == List(if c.value in old_ then old_ else old_ + [c.value])
  {
  }

  /** Unchecking a multi-checkbox drops every occurrence of its value and keeps the order of the
      rest: the new list is the old one filtered, and filtering distributes over concatenation. */
  lemma UncheckRemoves(state: State, c: ControlView)
    requires KindOf(c) == MultiCheckbox && !c.checked
    ensures var old_ := ListOr(Lookup(state, c.name));
      && Extract(state, c)[c.name] == List(Without(old_, c.value))
      && multiset(Extract(state, c)[c.name].items) == multiset(old_)[c.value := 0]
      && (c.value !in old_ ==> Extract(state, c)[c.name] == List(old_))
  {
    var old_ := ListOr(Lookup(state, c.name));
    WithoutCounts(old_, c.value);
    if c.value !in old_ {
      WithoutAbsent(old_, c.value);
    }
  }

  /** Extracting the same control twice in a row changes nothing the second time: the `input`
      and `change` events of one edit leave the state as one of them does. */
  lemma ExtractIdempotent(state: State, c: ControlView)
    ensures Extract(Extract(state, c), c) == Extract(state, c)
  {
    var once := Extract(state, c);
    if KindOf(c) == MultiCheckbox && !c.checked {
      WithoutAbsent(once[c.name].items, c.value);
    }
  }

  /** `state` after extracting each of `cs` in turn (the initialisation pass). */
  function ExtractAll(state: State, cs: seq<ControlView>): State
  {
    if cs == [] then state else Extract(ExtractAll(state, cs[..|cs| - 1]), cs[|cs| - 1])
  }

  /** Extracting a sequence of controls adds their names to the keys, removes none, and leaves
      every field none of them is named after as it was. */
  lemma {:induction false} ExtractAllFrame(state: State, cs: seq<ControlView>)
    ensures ExtractAll(state, cs).Keys == state.Keys + Names(cs)
    ensures forall k :: k in state && k !in Names(cs) ==> ExtractAll(state, cs)[k] == state[k]
  {
    if cs != [] {
      var n := |cs| - 1;
      ExtractAllFrame(state, cs[..n]);
      NamesSnoc(cs);
    }
  }

  /** The names of `cs`. */
  function Names(cs: seq<ControlView>): set<string>
  {
    set i | 0 <= i < |cs| :: cs[i].name
  }

  lemma NamesSnoc(cs: seq<ControlView>)
    requires cs != []
    ensures Names(cs) == Names(cs[..|cs| - 1]) + {cs[|cs| - 1].name}
  {
    var n := |cs| - 1;
    assert forall i :: 0 <= i < n ==> cs[..n][i] == cs[i];
  }

  lemma ExtractAllSnoc(state: State, cs: seq<ControlView>, c: ControlView)
    ensures ExtractAll(state, cs + [c]) == Extract(ExtractAll(state, cs), c)
  {
    assert (cs + [c])[..|cs|] == cs;
  }

  /** Initialisation from the empty state yields lists without duplicates. */
  lemma {:induction false} InitialState(cs: seq<ControlView>)
    ensures ListsDistinct(ExtractAll(map[], cs))
  {
    if cs != [] {
      var n := |cs| - 1;
      InitialState(cs[..n]);
      ExtractKeepsListsDistinct(ExtractAll(map[], cs[..n]), cs[n]);
    }
  }

  /** Some control among `cs` is a checked box of field `k` whose value is `v`. */
  predicate CheckedBoxAmong(cs: seq<ControlView>, k: string, v: string)
  {
    exists i :: 0 <= i < |cs| && cs[i].name == k && KindOf(cs[i]) == MultiCheckbox && cs[i].checked && cs[i].value == v
  }

  /** Every value held in a list of `state` is that of a checked box among `cs` of that field. */
  ghost predicate ListsFromChecked(state: State, cs: seq<ControlView>)
  {
    forall k :: k in state && state[k].List? ==> forall v :: v in state[k].items ==> CheckedBoxAmong(cs, k, v)
  }

  /** Initialisation from the empty state stores in a list only values of checked boxes of that
      field that it processed. */
  lemma {:induction false} InitialListsFromChecked(cs: seq<ControlView>)
    ensures ListsFromChecked(ExtractAll(map[], cs), cs)
  {
    if cs != [] {
      var n := |cs| - 1;
      var before := ExtractAll(map[], cs[..n]);
      InitialListsFromChecked(cs[..n]);
      var after := Extract(before, cs[n]);
      forall k | k in after && after[k].List?
        ensures forall v :: v in after[k].items ==> CheckedBoxAmong(cs, k, v)
      {
        forall v | v in after[k].items
          ensures CheckedBoxAmong(cs, k, v)
        {
          if k == cs[n].name && v == cs[n].value && cs[n].checked {
            ExtractByKind(before, before, cs[n]);
            assert cs[n].name == k && KindOf(cs[n]) == MultiCheckbox && cs[n].checked && cs[n].value == v;
          } else {
            if k == cs[n].name {
              ExtractByKind(before, before, cs[n]);
            }
            assert k in before && before[k].List? && v in before[k].items;
            var i :| 0 <= i < n && cs[..n][i].name == k && KindOf(cs[..n][i]) == MultiCheckbox
              && cs[..n][i].checked && cs[..n][i].value == v;
            assert cs[i] == cs[..n][i];
          }
        }
      }
    }
  }

  /** The values of `cs`, in order. */
  function ValuesOf(cs: seq<ControlView>): seq<string>
  {
    if cs == [] then [] else ValuesOf(cs[..|cs| - 1]) + [cs[|cs| - 1].value]
  }

  /** Checking boxes of one multi-checkbox field with distinct values not yet in its stored
      list appends those values in the order of the checks. */
  lemma {:induction false} ChecksAccumulate(state: State, cs: seq<ControlView>, name: string)
    requires name in state && state[name].List?
    requires forall i :: 0 <= i < |cs| ==> KindOf(cs[i]) == MultiCheckbox && cs[i].name == name && cs[i].checked
    requires forall i, j :: 0 <= i < j < |cs| ==> cs[i].value != cs[j].value
    requires forall i :: 0 <= i < |cs| ==> cs[i].value !in state[name].items
    ensures ExtractAll(state, cs)[name] == List(state[name].items + ValuesOf(cs))
  {
    if cs != [] {
      var n := |cs| - 1;
      var init := cs[..n];
      assert forall i :: 0 <= i < n ==> init[i] == cs[i];
      ChecksAccumulate(state, init, name);
      ValueNotAmong(init, cs[n].value);
      AccumulateStep(state, cs, name);
    }
  }

  /** The last check of such a run appends its value to the list the earlier checks left. */
  lemma AccumulateStep(state: State, cs: seq<ControlView>, name: string)
    requires cs != [] && name in state && state[name].List?
    requires var init := cs[..|cs| - 1];
      name in ExtractAll(state, init) && ExtractAll(state, init)[name] == List(state[name].items + ValuesOf(init))
    requires var c := cs[|cs| - 1];
      KindOf(c) == MultiCheckbox && c.name == name && c.checked
    requires var c := cs[|cs| - 1];
      c.value !in state[name].items && c.value !in ValuesOf(cs[..|cs| - 1])
    ensures name in ExtractAll(state, cs) && ExtractAll(state, cs)[name] == List(state[name].items + ValuesOf(cs))
  {
    var init, c := cs[..|cs| - 1], cs[|cs| - 1];
    var items := state[name].items + ValuesOf(init);
    CheckStep(ExtractAll(state, init), c, items);
    assert items + [c.value] == state[name].items + ValuesOf(cs);
  }

  lemma CheckStep(before: State, c: ControlView, items: seq<string>)
    requires KindOf(c) == MultiCheckbox && c.checked
    requires c.name in before && before[c.name] == List(items) && c.value !in items
    ensures Extract(before, c)[c.name] == List(items + [c.value])
  {
  }

  lemma {:induction false} ValueNotAmong(cs: seq<ControlView>, v: string)
    requires forall i :: 0 <= i < |cs| ==> cs[i].value != v
    ensures v !in ValuesOf(cs)
  {
    if cs != [] {
      ValueNotAmong(cs[..|cs| - 1], v);
    }
  }

  /** In such a run of checks, none notifies: each finds the field's list already stored. */
  lemma {:induction false} ChecksAreSilent(watchers: Option<seq<string>>, state: State, cs: seq<ControlView>, name: string)
    requires name in state && state[name].List?
    requires forall i :: 0 <= i < |cs| ==> KindOf(cs[i]) == MultiCheckbox && cs[i].name == name && cs[i].checked
    ensures forall i :: 0 <= i < |cs| ==>
      !Fires(true, true, watchers, Snapshot(ExtractAll(state, cs[..i]), cs[i]), ExtractAll(state, cs[..i + 1]))
  {
    forall i | 0 <= i < |cs|
      ensures !Fires(true, true, watchers, Snapshot(ExtractAll(state, cs[..i]), cs[i]), ExtractAll(state, cs[..i + 1]))
    {
      StaysList(state, cs[..i], name);
      assert cs[..i + 1][..i] == cs[..i];
      SharedListCheckIsSilent(true, true, watchers, ExtractAll(state, cs[..i]), cs[i]);
    }
  }

  /** Extracting multi-checkboxes of a field whose list is stored keeps a list stored there. */
  lemma {:induction false} StaysList(state: State, cs: seq<ControlView>, name: string)
    requires name in state && state[name].List?
    requires forall i :: 0 <= i < |cs| ==> KindOf(cs[i]) == MultiCheckbox && cs[i].name == name
    ensures name in ExtractAll(state, cs) && ExtractAll(state, cs)[name].List?
  {
    if cs != [] {
      StaysList(state, cs[..|cs| - 1], name);
    }
  }

  /** In a radio group extracted in order, the last member decides the value: a checked member
      followed by an unchecked one leaves the empty string. */
  lemma {:induction false} LastRadioWins(state: State, cs: seq<ControlView>, name: string)
    requires |cs| > 0
    requires forall i :: 0 <= i < |cs| ==> KindOf(cs[i]) == Radio && cs[i].name == name
    ensures var last := cs[|cs| - 1];
      ExtractAll(state, cs)[name] == Str(if last.checked then last.value else "")
  {
  }

  // ---------------------------------------------------------------------------
  // Change detection and notification

  /** The snapshot `{ ...state }` taken before extracting `c`, as the comparison afterwards sees
      it. The copy is shallow: when the stored entry is an array and `c` is a checked
      multi-checkbox, `push` grows that same array, so the snapshot's entry grows with it. */
  function Snapshot(state: State, c: ControlView): (r: State)
    ensures r.Keys == state.Keys
    ensures forall k :: k in state && k != c.name ==> r[k] == state[k]
    ensures r == state || r == Extract(state, c)
  {
    if KindOf(c) == MultiCheckbox && c.checked && c.name in state && state[c.name].List?
    then state[c.name := Extracted(Lookup(state, c.name), c)]
    else state
  }

  /** `fields.some(f => prev[f] !== cur[f])`. */
  function SomeFieldChanged(fields: seq<string>, prev: State, cur: State): (r: bool)
    ensures r <==> exists i :: 0 <= i < |fields| && Lookup(prev, fields[i]) != Lookup(cur, fields[i])
  {
    if fields == [] then false
    else Lookup(prev, fields[0]) != Lookup(cur, fields[0]) || SomeFieldChanged(fields[1..], prev, cur)
  }

  /** A key absent on one side and present on the other counts as a difference. */
  predicate FieldDiffers(f: string, prev: State, cur: State)
  {
    (f in prev) != (f in cur) || (f in prev && f in cur && prev[f] != cur[f])
  }

  /** The watch gate `watchers ? watchers.some(...) : true`. */
  function WatchedFieldChanged(watchers: Option<seq<string>>, prev: State, cur: State): bool
  {
    if watchers.None? then true else SomeFieldChanged(watchers.value, prev, cur)
  }

  /** With no watch list every change passes the gate; with one, the gate passes exactly when
      some watched field differs, a key present on one side only counting as a difference. */
  lemma WatchGate(watchers: Option<seq<string>>, prev: State, cur: State)
    ensures WatchedFieldChanged(watchers, prev, cur) <==>
      watchers.None? || exists f :: f in watchers.value && FieldDiffers(f, prev, cur)
  {
    if watchers.Some? {
      var ws := watchers.value;
      assert forall i :: 0 <= i < |ws| ==>
        (Lookup(prev, ws[i]) != Lookup(cur, ws[i]) <==> FieldDiffers(ws[i], prev, cur));
      assert (exists f :: f in ws && FieldDiffers(f, prev, cur)) ==>
        exists i :: 0 <= i < |ws| && FieldDiffers(ws[i], prev, cur);
    }
  }

  /** Whether the callback is invoked with `(prev, cur)`. */
  predicate Fires(callUpdate: bool, hasCallback: bool, watchers: Option<seq<string>>, prev: State, cur: State)
  {
    callUpdate && prev != cur && hasCallback && WatchedFieldChanged(watchers, prev, cur)
  }

  /** A notification always carries two different states, and only a notifying update with a
      callback sends one. */
  lemma FiresOnlyOnRealChange(callUpdate: bool, hasCallback: bool, watchers: Option<seq<string>>, state: State, c: ControlView)
    requires Fires(callUpdate, hasCallback, watchers, Snapshot(state, c), Extract(state, c))
    ensures callUpdate && hasCallback
    ensures Snapshot(state, c) == state && Extract(state, c) != state
  {
  }

  /** An update that leaves the state as it was never notifies. */
  lemma NoChangeIsSilent(callUpdate: bool, hasCallback: bool, watchers: Option<seq<string>>, state: State, c: ControlView)
    requires Extract(state, c) == state
    ensures !Fires(callUpdate, hasCallback, watchers, Snapshot(state, c), Extract(state, c))
  {
    if KindOf(c) == MultiCheckbox && c.checked && c.name in state && state[c.name].List? {
      assert Snapshot(state, c) == Extract(state, c);
    }
  }

  /** With a watch list, an update of a field that is not on it never notifies. */
  lemma UnwatchedChangeIsSilent(callUpdate: bool, hasCallback: bool, watchers: Option<seq<string>>, state: State, c: ControlView)
    requires watchers.Some? && c.name !in watchers.value
    ensures !Fires(callUpdate, hasCallback, watchers, Snapshot(state, c), Extract(state, c))
  {
    var prev, cur := Snapshot(state, c), Extract(state, c);
    forall i | 0 <= i < |watchers.value|
      ensures Lookup(prev, watchers.value[i]) == Lookup(cur, watchers.value[i])
    {
      assert watchers.value[i] != c.name;
    }
  }

  /** With a watch list naming the field, an update that changes it notifies, unless it is the
      check of a multi-checkbox whose list already exists (see `SharedListCheckIsSilent`). */
  lemma WatchedChangeFires(watchers: Option<seq<string>>, state: State, c: ControlView)
    requires watchers.None? || c.name in watchers.value
    requires Extract(state, c) != state
    requires !(KindOf(c) == MultiCheckbox && c.checked && c.name in state && state[c.name].List?)
    ensures Fires(true, true, watchers, Snapshot(state, c), Extract(state, c))
  {
    CopiedSnapshotReportsEveryChange(watchers, state, c);
  }

  /** As written: checking a multi-checkbox whose list is already stored never notifies, because
      the shallow snapshot shares the list that `push` grows. */
  lemma SharedListCheckIsSilent(callUpdate: bool, hasCallback: bool, watchers: Option<seq<string>>, state: State, c: ControlView)
    requires KindOf(c) == MultiCheckbox && c.checked && c.name in state && state[c.name].List?
    ensures !Fires(callUpdate, hasCallback, watchers, Snapshot(state, c), Extract(state, c))
  {
  }

  /** Three radios named `plan`, only "pro" checked: initialisation stores the empty string,
      because the unchecked "enterprise" comes last; the change event of "pro" alone then
      stores "pro". */
  lemma RadioGroupOrder()
    ensures var basic := ControlView("radio", "plan", false, "basic");
      var pro := ControlView("radio", "plan", true, "pro");
      var enterprise := ControlView("radio", "plan", false, "enterprise");
      var s := ExtractAll(map[], [basic, pro, enterprise]);
      && s == map["plan" := Str("")]
      && Extract(s, pro) == map["plan" := Str("pro")]
  {
    var basic := ControlView("radio", "plan", false, "basic");
    var pro := ControlView("radio", "plan", true, "pro");
    var enterprise := ControlView("radio", "plan", false, "enterprise");
    assert !EndsWith("plan", "[]") by { assert "plan"[2..] != "[]"; }
    assert KindOf(enterprise) == Radio && KindOf(pro) == Radio;
    var cs := [basic, pro, enterprise];
    assert cs[..2] == [basic, pro];
    assert cs[..2][..1] == [basic];
    assert ExtractAll(map[], [basic]) == map["plan" := Str("")];
    assert ExtractAll(map[], cs[..2]) == map["plan" := Str("pro")];
  }

  /** A concrete instance: with `["a"]` stored under `tags[]`, checking the `tags[]` box whose
      value is "b" stores `["a", "b"]`, yet no callback fires even with no watch list. */
  lemma MissedNotification()
    ensures var state := map["tags[]" := List(["a"])];
      var c := ControlView("checkbox", "tags[]", true, "b");
      && Extract(state, c) == map["tags[]" := List(["a", "b"])]
      && !Fires(true, true, None, Snapshot(state, c), Extract(state, c))
  {
    var state := map["tags[]" := List(["a"])];
    var c := ControlView("checkbox", "tags[]", true, "b");
    assert EndsWith(c.name, "[]") by { assert c.name[|c.name| - 2..] == "[]"; }
    assert KindOf(c) == MultiCheckbox;
    assert "b" !in ["a"];
    assert Extracted(Lookup(state, c.name), c) == List(["a", "b"]);
  }

  /** Corrected: when the snapshot is a real copy of the previous state, every change of a
      watched field (or any change, with no watch list) notifies, and only a change does. */
  lemma CopiedSnapshotReportsEveryChange(watchers: Option<seq<string>>, state: State, c: ControlView)
    requires watchers.None? || c.name in watchers.value
    ensures Fires(true, true, watchers, state, Extract(state, c)) <==> Extract(state, c) != state
  {
    var cur := Extract(state, c);
    if cur != state && watchers.Some? {
      if Lookup(state, c.name) == Lookup(cur, c.name) {
        UnchangedAtName(state, c);
      }
      var i :| 0 <= i < |watchers.value| && watchers.value[i] == c.name;
      assert Lookup(state, watchers.value[i]) != Lookup(cur, watchers.value[i]);
    }
  }

  /** Extraction changes nothing when the touched entry keeps its value. */
  lemma UnchangedAtName(state: State, c: ControlView)
    requires Lookup(state, c.name) == Lookup(Extract(state, c), c.name)
    ensures Extract(state, c) == state
  {
    var cur := Extract(state, c);
    assert cur.Keys == state.Keys;
    assert forall k :: k in state ==> cur[k] == state[k];
  }

  // ---------------------------------------------------------------------------
  // External merge

  /** `{ ...state, ...partial }`: the partial map's keys win, every other key survives. */
  function Merge(state: State, partial: State): (r: State)
    ensures r.Keys == state.Keys + partial.Keys
    ensures forall k :: k in partial ==> r[k] == partial[k]
    ensures forall k :: k in state && k !in partial ==> r[k] == state[k]
  {
    state + partial
  }

  // ---------------------------------------------------------------------------
  // Application

  /** The control as `#updateElements` leaves it: untouched when its field is undefined, and
      otherwise with `checked` (or, for a plain input, `value`) set from the stored value. */
  function Apply(state: State, c: ControlView): (r: ControlView)
    ensures r.inputType == c.inputType && r.name == c.name && KindOf(r) == KindOf(c)
    ensures c.name !in state ==> r == c
    ensures KindOf(c) != Other ==> r.value == c.value
    ensures KindOf(c) == Other ==> r.checked == c.checked
    ensures c.name in state && KindOf(c) == MultiCheckbox && state[c.name].List? ==>
      (r.checked <==> c.value in state[c.name].items)
    ensures c.name in state && KindOf(c) == Checkbox ==>
      (r.checked <==> state[c.name] != Str("") && state[c.name] != Bool(false))
    ensures c.name in state && KindOf(c) == Radio ==> (r.checked <==> state[c.name] == Str(c.value))
    ensures c.name in state && KindOf(c) == Other && state[c.name].Str? ==> r.value == state[c.name].s
    ensures c.name in state && KindOf(c) == Other && state[c.name].Bool? ==>
      r.value == if state[c.name].b then "true" else "false"
    ensures c.name in state && KindOf(c) == Other && state[c.name].List? ==>
      r.value == Join(state[c.name].items, ",")
  {
    if c.name !in state then c
    else
      var v := state[c.name];
      match KindOf(c)
      case MultiCheckbox => c.(checked := v.List? && c.value in v.items)
      case Checkbox => c.(checked := Truthy(Some(v)))
      case Radio => c.(checked := v == Str(c.value))
      case Other => c.(value := ToJsString(v))
  }

  /** The stored value has the shape that extracting `c` produces. */
  predicate WellTyped(state: State, c: ControlView)
  {
    c.name in state &&
    match KindOf(c)
    case MultiCheckbox => state[c.name].List?
    case Checkbox => state[c.name].Bool?
    case Radio => state[c.name].Str?
    case Other => state[c.name].Str?
  }

  /** Round trip: writing the state onto a non-radio control and extracting it again leaves the
      state as it was. */
  lemma ApplyThenExtract(state: State, c: ControlView)
    requires WellTyped(state, c) && KindOf(c) != Radio
    ensures Extract(state, Apply(state, c)) == state
  {
    var r := Apply(state, c);
    if KindOf(c) == MultiCheckbox && !r.checked {
      WithoutAbsent(state[c.name].items, c.value);
    }
    assert Extracted(Lookup(state, c.name), r) == state[c.name];
  }

  /** For a radio the round trip holds exactly when the stored string is empty or the control's
      own value: any other group member's value is overwritten with "". */
  lemma RadioRoundTrip(state: State, c: ControlView)
    requires WellTyped(state, c) && KindOf(c) == Radio
    ensures Extract(state, Apply(state, c)) == state <==> state[c.name].s == "" || state[c.name].s == c.value
  {
    var r := Apply(state, c);
    if Extract(state, r) == state {
      assert Extract(state, r)[c.name] == state[c.name];
    }
  }

  /** Every control after `#updateElements`. */
  function ApplyAll(state: State, cs: seq<ControlView>): seq<ControlView>
  {
    seq(|cs|, i requires 0 <= i < |cs| => Apply(state, cs[i]))
  }

  /** Applying the state to every control and re-extracting them all in order yields the same
      state, when no control is a radio and every field holds the shape its controls produce. */
  lemma {:induction false} ReExtractAllIsIdentity(state: State, cs: seq<ControlView>)
    requires forall i :: 0 <= i < |cs| ==> WellTyped(state, cs[i]) && KindOf(cs[i]) != Radio
    ensures ExtractAll(state, ApplyAll(state, cs)) == state
  {
    if cs != [] {
      var n := |cs| - 1;
      ReExtractAllIsIdentity(state, cs[..n]);
      assert ApplyAll(state, cs)[..n] == ApplyAll(state, cs[..n]);
      ApplyThenExtract(state, cs[n]);
    }
  }
}
