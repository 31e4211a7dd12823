/** The synchroniser object: a state map kept in step with a fixed list of form controls. */
module Manager {
  import opened FormValues
  import opened Sync

  /** A form control (an `input`, `select` or `textarea` element); the synchroniser reads all
      four properties and writes `checked` and `value`. */
  class Control {
    const inputType: string
    const name: string
    var checked: bool
    var value: string

    constructor (inputType: string, name: string, checked: bool, value: string)
      ensures View() == ControlView(inputType, name, checked, value)
    {
      this.inputType := inputType;
      this.name := name;
      this.checked := checked;
      this.value := value;
    }

    function View(): ControlView
      reads this
    {
      ControlView(inputType, name, checked, value)
    }
  }

  /** The properties of each control, in order. */
  function Views(cs: seq<Control>): (vs: seq<ControlView>)
    reads set c | c in cs
    ensures |vs| == |cs|
  {
    if cs == [] then [] else Views(cs[..|cs| - 1]) + [cs[|cs| - 1].View()]
  }

  /** The view at each position is that control's. */
  lemma {:induction false} ViewsAt(cs: seq<Control>, i: nat)
    requires i < |cs|
    ensures Views(cs)[i] == cs[i].View()
  {
    if i < |cs| - 1 {
      ViewsAt(cs[..|cs| - 1], i);
    }
  }

  /** One invocation of the change callback: the arguments `(previousState, state)`. */
  datatype Notice = Notice(prev: State, next: State)

  class StateManager {
    /** The controls found in the container at construction; distinct elements. */
    const controls: seq<Control>
    /** Whether `onStateUpdate` is a function. */
    const hasCallback: bool
    /** The watch list, or `None` when it is absent. */
    const watchers: Option<seq<string>>
    var state: State
    /** Every invocation of the callback so far, oldest first. */
    var notices: seq<Notice>

    ghost predicate Valid()
    {
      forall i, j :: 0 <= i < j < |controls| ==> controls[i] != controls[j]
    }

    /** Starts from the empty state and extracts every control, without notifying. */
    constructor (controls: seq<Control>, hasCallback: bool, watchers: Option<seq<string>>)
      requires forall i, j :: 0 <= i < j < |controls| ==> controls[i] != controls[j]
      ensures Valid()
      ensures this.controls == controls && this.hasCallback == hasCallback && this.watchers == watchers
      ensures state == ExtractAll(map[], Views(controls))
      ensures state.Keys == Names(Views(controls)) && ListsDistinct(state)
      ensures ListsFromChecked(state, Views(controls))
      ensures notices == []
    {
      this.controls := controls;
      this.hasCallback := hasCallback;
      this.watchers := watchers;
      state := map[];
      notices := [];
      new;
      InitializeState();
      InitialState(Views(controls));
      ExtractAllFrame(map[], Views(controls));
      InitialListsFromChecked(Views(controls));
    }

    /** Extracts every control in order with notification switched off. */
    method InitializeState()
      modifies this`state, this`notices
      ensures state == ExtractAll(old(state), Views(controls))
      ensures notices == old(notices)
    {
      ghost var views := Views(controls);
      forall j | 0 <= j < |controls|
        ensures views[j] == controls[j].View()
      {
        ViewsAt(controls, j);
      }
      for i := 0 to |controls|
        invariant state == ExtractAll(old(state), views[..i])
        invariant notices == old(notices)
      {
        assert views[..i + 1][..i] == views[..i];
        UpdateState(controls[i], false);
      }
      assert views[..|controls|] == views;
    }

    /** Extracts `c` into the state, then invokes the callback when `callUpdate` is set, the
        state (as the shallow snapshot sees it) changed, a callback exists and the watch gate
        passes. */
    method UpdateState(c: Control, callUpdate: bool)
      modifies this`state, this`notices
      ensures state == Extract(old(state), c.View())
      ensures notices == old(notices) +
        if Fires(callUpdate, hasCallback, watchers, Snapshot(old(state), c.View()), state)
        then [Notice(old(state), state)] else []
      ensures |notices| <= |old(notices)| + 1
      ensures |notices| > |old(notices)| ==> callUpdate && hasCallback && old(state) != state
    {
      var previous := state;
      var view := c.View();
      match KindOf(view) {
        case MultiCheckbox =>
          // `state[name] || []` keeps the stored array itself when there is one
          var shared := c.name in state && state[c.name].List?;
          var items := ListOr(Lookup(state, c.name));
          if c.checked {
            if c.value !in items {
              items := items + [c.value];
              if shared {
                // `push` grows the array that the shallow snapshot shares
                previous := previous[c.name := List(items)];
              }
            }
          } else {
            items := Without(items, c.value);
          }
          assert List(items) == Extracted(Lookup(state, c.name), view);
          state := state[c.name := List(items)];
        case Checkbox =>
          state := state[c.name := Bool(c.checked)];
        case Radio =>
          state := state[c.name := Str(if c.checked then c.value else "")];
        case Other =>
          state := state[c.name := Str(c.value)];
      }
      assert state == Extract(old(state), view);
      assert previous == Snapshot(old(state), view);
      if callUpdate && previous != state {
        if hasCallback && WatchedFieldChanged(watchers, previous, state) {
          FiresOnlyOnRealChange(callUpdate, hasCallback, watchers, old(state), view);
          notices := notices + [Notice(previous, state)];
        }
      }
    }

    /** The listener bound to both the `input` and the `change` event of every control. */
    method HandleEvent(c: Control)
      requires c in controls
      modifies this`state, this`notices
      ensures state == Extract(old(state), c.View())
      ensures notices == old(notices) +
        if Fires(true, hasCallback, watchers, Snapshot(old(state), c.View()), state)
        then [Notice(old(state), state)] else []
    {
      UpdateState(c, true);
    }

    /** Merges `partial` over the state and writes the result onto every control; never
        notifies. */
    method SetState(partial: State)
      requires Valid()
      modifies this`state, controls
      ensures state == Merge(old(state), partial)
      ensures notices == old(notices)
      ensures forall i :: 0 <= i < |controls| ==> controls[i].View() == Apply(state, old(controls[i].View()))
    {
      state := Merge(state, partial);
      UpdateElements();
    }

    /** Writes the state onto every control whose field is defined; afterwards re-extracting
        any non-radio control whose field has the shape it produces leaves the state as it is. */
    method UpdateElements()
      requires Valid()
      modifies controls
      ensures forall i :: 0 <= i < |controls| ==> controls[i].View() == Apply(state, old(controls[i].View()))
      ensures forall i :: 0 <= i < |controls| ==>
        WellTyped(state, controls[i].View()) && KindOf(controls[i].View()) != Radio ==>
        Extract(state, controls[i].View()) == state
    {
      for i := 0 to |controls|
        invariant forall j :: 0 <= j < i ==> controls[j].View() == Apply(state, old(controls[j].View()))
        invariant forall j :: i <= j < |controls| ==> controls[j].View() == old(controls[j].View())
      {
        var c := controls[i];
        if c.name in state {
          var v := state[c.name];
          match KindOf(c.View()) {
            case MultiCheckbox =>
              c.checked := v.List? && c.value in v.items;
            case Checkbox =>
              c.checked := Truthy(Some(v));
            case Radio =>
              c.checked := v == Str(c.value);
            case Other =>
              c.value := ToJsString(v);
          }
        }
      }
      forall i | 0 <= i < |controls| && WellTyped(state, controls[i].View()) && KindOf(controls[i].View()) != Radio
        ensures Extract(state, controls[i].View()) == state
      {
        ApplyThenExtract(state, old(controls[i].View()));
      }
    }
  }
}
