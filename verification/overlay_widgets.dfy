/** The two overlay widgets inside ShellUI: pinned handles, selective updates, what a packet leaves on screen. */
module OverlayWidgets {
  import opened Numerals

  const LABEL_ID := "id_commonfps_label"
  const VALUE_ID := "id_commonfps_value"

  /** Managed objects and garbage-collector handles are numbers; zero is null, and no handle. */
  type Object = nat
  type Handle = nat

  datatype Config = Config(fontSize: int, corner: int, marginX: real, marginY: real,
                           labelColor: int, valueColor: int, showLabel: bool)
  datatype Layout = Layout(fontSize: int, x: real, y: real, labelAdvance: real)
  datatype Frame = Frame(loading: bool, fps: int, config: Config)

  /** What a user sees of a widget. */
  datatype Style = Style(font: int, color: int, text: string, x: real, y: real)

  /** `home` is the root widget whose tree holds the widget, or null. */
  datatype Widget = Widget(name: string, home: Object, alignment: int, style: Style)

  function LabelText(config: Config): string
  {
    if config.showLabel then "FPS:" else ""
  }

  function ValueText(frame: Frame): string
  {
    if frame.loading then "Loading" else Signed(frame.fps)
  }

  /** What a build from scratch gives the two widgets. */
  function LabelStyle(config: Config, layout: Layout): Style
  {
    Style(layout.fontSize, config.labelColor, LabelText(config), layout.x, layout.y)
  }

  function ValueStyle(config: Config, layout: Layout, text: string): Style
  {
    Style(layout.fontSize, config.valueColor, text, layout.x + layout.labelAdvance, layout.y)
  }

  datatype Property = Font(size: int) | TextColor(rgb: int) | Text(text: string) | X(x: real) | Y(y: real)

  function Put(s: Style, p: Property): Style
  {
    match p
    case Font(size) => s.(font := size)
    case TextColor(rgb) => s.(color := rgb)
    case Text(text) => s.(text := text)
    case X(x) => s.(x := x)
    case Y(y) => s.(y := y)
  }

  /** `after` is `before` with one handle, `h`, given up for `h'`, which pins `o`. */
  ghost predicate Swapped(before: map<Handle, Object>, after: map<Handle, Object>, h: Handle, h': Handle, o: Object)
  {
    && h' != 0 && (h' == h || h' !in before)
    && after == (before - {h})[h' := o]
  }

  /** At most the style of `o` differs. */
  ghost predicate Restyled(before: map<Object, Widget>, after: map<Object, Widget>, o: Object)
  {
    o in before && exists s :: after == before[o := before[o].(style := s)]
  }

  /** Which properties of a widget an update sets. */
  datatype Changes = Changes(font: bool, color: bool, text: bool, place: bool)

  /** `s` with the chosen properties taken from `goal`. */
  function Selective(s: Style, goal: Style, c: Changes): Style
  {
    Style(if c.font then goal.font else s.font, if c.color then goal.color else s.color,
          if c.text then goal.text else s.text, if c.place then goal.x else s.x, if c.place then goal.y else s.y)
  }

  lemma RestyledAgain(a: map<Object, Widget>, b: map<Object, Widget>, c: map<Object, Widget>, o: Object)
    requires Restyled(a, b, o) && Restyled(b, c, o)
    ensures Restyled(a, c, o)
  {
    var s :| c == b[o := b[o].(style := s)];
    assert c == a[o := a[o].(style := s)];
  }

  class Overlay {
    /** The managed side: the live handles with what they pin, and the label widgets. */
    var handles: map<Handle, Object>
    var widgets: map<Object, Widget>

    var sceneHandle: Handle
    var rootHandle: Handle
    var labelHandle: Handle
    var valueHandle: Handle
    var styleApplied: bool
    var appliedConfig: Config
    var appliedLayout: Layout
    const layoutOf: (Config, bool) -> Layout
    /** How often the runtime has failed the renderer. */
    ghost var faults: nat

    /** A fresh renderer, in a ShellUI that may already hold such widgets. */
    constructor (widgets: map<Object, Widget>, layoutOf: (Config, bool) -> Layout)
      requires 0 !in widgets
      ensures Valid() && !styleApplied && this.layoutOf == layoutOf && this.widgets == widgets
    {
      handles, this.widgets := map[], widgets;
      sceneHandle, rootHandle, labelHandle, valueHandle := 0, 0, 0, 0;
      styleApplied, faults := false, 0;
      appliedConfig, appliedLayout := Config(22, 0, 0.0, 0.0, 0, 0, true), Layout(22, 0.0, 0.0, 0.0);
      this.layoutOf := layoutOf;
    }

    // ---------- Invariant ----------

    function Target(h: Handle): Object
      reads this`handles
    {
      if h != 0 && h in handles then handles[h] else 0
    }

    ghost predicate Distinct(a: Handle, b: Handle)
    {
      a == 0 || a != b
    }

    /** The live handles are exactly those the globals hold, plus `extra`. */
    ghost predicate Pinned(extra: set<Handle>)
      reads this`handles, this`sceneHandle, this`rootHandle, this`labelHandle, this`valueHandle
    {
      && handles.Keys == {sceneHandle, rootHandle, labelHandle, valueHandle} - {0} + extra
      && extra !! {0, sceneHandle, rootHandle, labelHandle, valueHandle}
      && Distinct(sceneHandle, rootHandle) && Distinct(sceneHandle, labelHandle) && Distinct(sceneHandle, valueHandle)
      && Distinct(rootHandle, labelHandle) && Distinct(rootHandle, valueHandle) && Distinct(labelHandle, valueHandle)
      && forall h :: h in handles ==> handles[h] != 0
    }

    /** A held widget is of its kind and lives under the held root. */
    ghost predicate Holds(h: Handle, name: string)
      reads this`handles, this`widgets, this`rootHandle
    {
      h != 0 ==> Target(h) in widgets && widgets[Target(h)].name == name && widgets[Target(h)].home == Target(rootHandle)
    }

    /** An applied style is on both widgets. */
    ghost predicate StyleHolds()
      reads this`handles, this`widgets, this`labelHandle, this`valueHandle, this`styleApplied,
            this`appliedConfig, this`appliedLayout
    {
      styleApplied ==>
        && labelHandle in handles && Target(labelHandle) in widgets
        && valueHandle in handles && Target(valueHandle) in widgets
        && labelHandle != 0 && valueHandle != 0
        && widgets[Target(labelHandle)].style == LabelStyle(appliedConfig, appliedLayout)
        && var v := widgets[Target(valueHandle)].style; v == ValueStyle(appliedConfig, appliedLayout, v.text)
    }

    ghost predicate Valid()
      reads this`handles, this`widgets, this`sceneHandle, this`rootHandle, this`labelHandle, this`valueHandle,
            this`styleApplied, this`appliedConfig, this`appliedLayout
    {
      && 0 !in widgets && Pinned({}) && Holds(labelHandle, LABEL_ID) && Holds(valueHandle, VALUE_ID) && StyleHolds()
    }

    /** What did not succeed, failed for a failure of the runtime since there were `before`. */
    ghost predicate Blamed(ok: bool, before: nat)
      reads this`faults
    {
      faults >= before && (ok || faults > before)
    }

    // ---------- Handles ----------

    /** An object from the runtime, or null. */
    method Obtain() returns (o: Object)
      modifies this`faults
      ensures faults == old(faults) + if o == 0 then 1 else 0
    {
      o := *;
      faults := faults + if o == 0 then 1 else 0;
    }

    /** Whether a step of the runtime worked. */
    method Outcome() returns (ok: bool)
      modifies this`faults
      ensures faults == old(faults) + if ok then 0 else 1
    {
      ok := *;
      faults := faults + if ok then 0 else 1;
    }

    /** `mono_gchandle_new`: may fail, or give a handle that pins something else. */
    method NewHandle(o: Object) returns (h: Handle)
      requires 0 !in handles
      modifies this`handles, this`faults
      ensures faults >= old(faults) && (faults == old(faults) ==> h != 0 && h in handles && handles[h] == o)
      ensures h == 0 ==> handles == old(handles)
      ensures h != 0 ==> h !in old(handles) && h in handles && handles == old(handles)[h := handles[h]]
    {
      var candidate: nat, target: nat := *, *;
      if candidate == 0 || candidate in handles {
        faults := faults + 1;
        return 0;
      }
      handles := handles[candidate := target];
      faults := faults + if target == o then 0 else 1;
      return candidate;
    }

    /** `replace_managed_handle`: on failure the old handle is kept. */
    method ReplaceHandle(h: Handle, o: Object) returns (ok: bool, h': Handle)
      requires 0 !in handles && (h == 0 || h in handles)
      modifies this`handles, this`faults
      ensures Blamed(ok || o == 0, old(faults))
      ensures ok ==> o != 0 && Swapped(old(handles), handles, h, h', o)
      ensures !ok ==> h' == h && handles == old(handles)
    {
      if o == 0 {
        return false, h;
      }
      if h != 0 && Target(h) == o {
        return true, h;
      }
      var next := NewHandle(o);
      if next == 0 || Target(next) != o {
        if next != 0 {
          handles := handles - {next};
        }
        return false, h;
      }
      ghost var before := old(handles);
      assert (before - {h})[next := o] == before[next := o] - {h};
      handles := handles - {h};
      return true, next;
    }

    /** A temporary pin of a new object; zero when the object or the pin could not be had. */
    method Pin(o: Object) returns (pin: Handle)
      requires 0 !in handles
      modifies this`handles, this`faults
      ensures Blamed(pin != 0 || o == 0, old(faults))
      ensures pin == 0 ==> handles == old(handles)
      ensures pin != 0 ==> o != 0 && pin !in old(handles) && handles == old(handles)[pin := o]
    {
      var ok: bool;
      ok, pin := ReplaceHandle(0, o);
      if !ok {
        return 0;
      }
    }

    /** A new object for one call, pinned meanwhile. */
    method PinNew() returns (pin: Handle)
      requires 0 !in handles
      modifies this`handles, this`faults
      ensures Blamed(pin != 0, old(faults))
      ensures pin == 0 ==> handles == old(handles)
      ensures pin != 0 ==> pin !in old(handles) && pin in handles && handles[pin] != 0 &&
                           handles == old(handles)[pin := handles[pin]]
    {
      var o := Obtain();
      pin := Pin(o);
    }

    method Unpin(pin: Handle)
      modifies this`handles
      ensures handles == old(handles) - {pin}
    {
      handles := handles - {pin};
    }

    // ---------- Properties ----------

    /** A setter called directly: it reports failure only when it was not called. */
    method SetDirect(o: Object, p: Property) returns (ok: bool)
      requires o in widgets
      modifies this`widgets, this`faults
      ensures faults == old(faults) + if ok then 0 else 1
      ensures widgets == if ok then old(widgets)[o := old(widgets)[o].(style := Put(old(widgets)[o].style, p))] else old(widgets)
    {
      ok := Outcome();
      if ok {
        widgets := widgets[o := widgets[o].(style := Put(widgets[o].style, p))];
      }
    }

    /** A setter invoked through the runtime: it may throw after taking effect. */
    method SetInvoked(o: Object, p: Property) returns (ok: bool)
      requires o in widgets
      modifies this`widgets, this`faults
      ensures faults == old(faults) + if ok then 0 else 1
      ensures ok ==> widgets == old(widgets)[o := old(widgets)[o].(style := Put(old(widgets)[o].style, p))]
      ensures Restyled(old(widgets), widgets, o)
    {
      var found: bool, throws: bool, effective: bool := *, *, *;
      ghost var s := widgets[o].style;
      assert widgets == widgets[o := widgets[o].(style := s)];
      if !found {
        faults := faults + 1;
        return false;
      }
      if !throws || effective {
        widgets := widgets[o := widgets[o].(style := Put(widgets[o].style, p))];
      }
      ok := !throws;
      faults := faults + if ok then 0 else 1;
    }

    /** `apply_rgb`: the colour is boxed and pinned for the call. */
    method SetColor(o: Object, rgb: int) returns (ok: bool)
      requires o in widgets && 0 !in handles
      modifies this`widgets, this`handles, this`faults
      ensures Blamed(ok, old(faults))
      ensures ok ==> widgets == old(widgets)[o := old(widgets)[o].(style := Put(old(widgets)[o].style, TextColor(rgb)))]
      ensures Restyled(old(widgets), widgets, o)
      ensures handles == old(handles)
    {
      Unstyled(widgets, o);
      var pin := PinNew();
      if pin == 0 {
        return false;
      }
      ok := SetInvoked(o, TextColor(rgb));
      Unpin(pin);
    }

    /** `set_label_text`. */
    method SetText(o: Object, text: string) returns (ok: bool)
      requires o in widgets && 0 !in handles
      modifies this`widgets, this`handles, this`faults
      ensures Blamed(ok, old(faults))
      ensures ok ==> widgets == old(widgets)[o := old(widgets)[o].(style := Put(old(widgets)[o].style, Text(text)))]
      ensures Restyled(old(widgets), widgets, o)
      ensures handles == old(handles)
    {
      Unstyled(widgets, o);
      var pin := PinNew();
      if pin == 0 {
        return false;
      }
      ok := SetDirect(o, Text(text));
      Unpin(pin);
    }

    // ---------- Making and finding widgets ----------

    /** `create_font`, pinned. */
    method CreateFont() returns (pin: Handle)
      requires 0 !in handles
      modifies this`handles, this`faults
      ensures Blamed(pin != 0, old(faults))
      ensures pin == 0 ==> handles == old(handles)
      ensures pin != 0 ==> pin !in old(handles) && pin in handles && handles[pin] != 0 &&
                           handles == old(handles)[pin := handles[pin]]
    {
      pin := PinNew();
      var built := Outcome();
      if pin != 0 && !built {
        Unpin(pin);
        return 0;
      }
    }

    /** Sets every property of a new widget, with its name, text and colour pinned meanwhile. */
    method BuildLabel(made: Object, widget: Widget) returns (ok: bool)
      requires 0 !in handles && made !in widgets
      modifies this`handles, this`widgets, this`faults
      ensures Blamed(ok, old(faults))
      ensures handles == old(handles)
      ensures widgets == old(widgets) || (made in widgets && widgets == old(widgets)[made := widgets[made]])
      ensures ok ==> widgets == old(widgets)[made := widget]
    {
      var namePin := PinNew();
      ghost var withName := handles;
      var textPin := PinNew();
      ghost var withText := handles;
      var colorPin := PinNew();
      ok := false;
      if namePin != 0 && textPin != 0 && colorPin != 0 {
        // When a setter fails the widget is dropped, whatever it has become.
        var result: Widget := *;
        ok := result == widget;
        faults := faults + if ok then 0 else 1;
        widgets := widgets[made := result];
      }
      Unpin(colorPin);
      assert handles == withText;
      Unpin(textPin);
      assert handles == withName;
      Unpin(namePin);
    }

    /** `create_label`: a pinned widget with every property set, or none. */
    method CreateLabel(widget: Widget) returns (pin: Handle)
      requires 0 !in handles && 0 !in widgets
      modifies this`handles, this`widgets, this`faults
      ensures Blamed(pin != 0, old(faults))
      ensures 0 !in widgets
      ensures pin == 0 ==> handles == old(handles) && Extends(old(widgets), widgets)
      ensures pin != 0 ==>
                && pin !in old(handles) && pin in handles && handles == old(handles)[pin := handles[pin]]
                && handles[pin] != 0 && handles[pin] !in old(widgets)
                && widgets == old(widgets)[handles[pin] := widget]
    {
      var made := Obtain();
      if made in widgets {
        // The allocator never returns an object that is in use.
        faults := faults + 1;
        return 0;
      }
      pin := Pin(made);
      if pin == 0 {
        return 0;
      }
      var ok := BuildLabel(made, widget);
      if !ok {
        Unpin(pin);
        assert handles == old(handles);
        pin := 0;
      }
    }

    /** `append_child`: it may throw after the child is in the tree. */
    method AppendChild(root: Object, child: Object) returns (ok: bool)
      requires child in widgets
      modifies this`widgets, this`faults
      ensures faults == old(faults) + if ok then 0 else 1
      ensures widgets == old(widgets) || widgets == old(widgets)[child := old(widgets)[child].(home := root)]
      ensures ok ==> widgets == old(widgets)[child := old(widgets)[child].(home := root)]
    {
      var done: bool, throws: bool := *, *;
      if done {
        widgets := widgets[child := widgets[child].(home := root)];
      }
      ok := done && !throws;
      faults := faults + if ok then 0 else 1;
    }

    /** `find_widget`: null, or a widget of that name in the tree of `root`. */
    method FindWidget(root: Object, id: string) returns (o: Object)
      requires 0 !in handles
      modifies this`handles, this`faults
      ensures faults >= old(faults)
      ensures handles == old(handles)
      ensures o != 0 ==> o in widgets && widgets[o].name == id && widgets[o].home == root
    {
      var found: nat := *;
      var pin := PinNew();
      if pin == 0 {
        return 0;
      }
      Unpin(pin);
      o := if found in widgets && widgets[found].name == id && widgets[found].home == root then found else 0;
    }

    /** What holding a widget in `h'` instead of `h` leaves of the widgets. */
    ghost predicate Ensured(before: map<Object, Widget>, existing: Object, o: Object, made: Widget)
      reads this`widgets
    {
      && o != 0 && o in widgets
      && if existing != 0 then o == existing && widgets == before
         else o !in before && widgets == before[o := made]
    }

    /** Makes the widget when it does not exist, and holds it in place of `h`. */
    method EnsureWidget(root: Object, existing: Object, made: Widget, h: Handle) returns (ok: bool, o: Object, h': Handle)
      requires 0 !in handles && 0 !in widgets && made.home == root
      requires (existing != 0 ==> existing in widgets) && (h == 0 || h in handles)
      modifies this`handles, this`widgets, this`faults
      ensures Blamed(ok, old(faults))
      ensures 0 !in widgets
      ensures !ok ==> h' == h && handles == old(handles) && Extends(old(widgets), widgets)
      ensures ok ==> Swapped(old(handles), handles, h, h', o) && Ensured(old(widgets), existing, o, made)
    {
      o := existing;
      if existing != 0 {
        ok, h' := ReplaceHandle(h, existing);
        return;
      }
      ghost var before := handles;
      var created := CreateLabel(made.(home := 0));
      if created == 0 {
        return false, 0, h;
      }
      o := handles[created];
      var appended := AppendChild(root, o);
      if !appended {
        Unpin(created);
        assert handles == before;
        return false, 0, h;
      }
      ok, h' := ReplaceHandle(h, o);
      Unpin(created);
      if ok {
        SwapThenUnpin(before, created, h, h', o);
      } else {
        assert handles == before;
      }
    }

    // ---------- Scene and root ----------

    /** Lets go of the label and the value, and with them of the applied style. */
    method ForgetWidgets(ghost extra: set<Handle>)
      requires Pinned(extra)
      modifies this`handles, this`labelHandle, this`valueHandle, this`styleApplied
      ensures Pinned(extra) && labelHandle == valueHandle == 0 && !styleApplied
      ensures handles == old(handles) - {old(labelHandle), old(valueHandle)}
    {
      handles := handles - {labelHandle};
      labelHandle := 0;
      handles := handles - {valueHandle};
      valueHandle := 0;
      styleApplied := false;
    }

    method ForgetRoot(ghost extra: set<Handle>)
      requires Pinned(extra) && labelHandle == valueHandle == 0
      modifies this`handles, this`rootHandle
      ensures Pinned(extra) && rootHandle == 0
    {
      handles := handles - {rootHandle};
      rootHandle := 0;
    }

    method HoldScene(scene: Object, ghost extra: set<Handle>) returns (ok: bool)
      requires Pinned(extra)
      modifies this`handles, this`sceneHandle, this`faults
      ensures Blamed(ok || scene == 0, old(faults))
      ensures Pinned(extra)
      ensures !ok ==> sceneHandle == old(sceneHandle) && handles == old(handles)
      ensures ok ==> Target(sceneHandle) == scene != 0
    {
      ok, sceneHandle := ReplaceHandle(sceneHandle, scene);
    }

    method HoldRoot(root: Object, ghost extra: set<Handle>) returns (ok: bool)
      requires Pinned(extra)
      modifies this`handles, this`rootHandle, this`faults
      ensures Blamed(ok || root == 0, old(faults))
      ensures Pinned(extra) && Target(sceneHandle) == old(Target(sceneHandle))
      ensures !ok ==> rootHandle == old(rootHandle) && handles == old(handles)
      ensures ok ==> Target(rootHandle) == root != 0
    {
      ok, rootHandle := ReplaceHandle(rootHandle, root);
    }

    method ChangeScene(scene: Object, ghost extra: set<Handle>) returns (ok: bool)
      requires Pinned(extra)
      modifies this`handles, this`sceneHandle, this`rootHandle, this`labelHandle, this`valueHandle, this`styleApplied, this`faults
      ensures Blamed(ok || scene == 0, old(faults))
      ensures Pinned(extra) && rootHandle == labelHandle == valueHandle == 0 && !styleApplied
      ensures ok ==> Target(sceneHandle) == scene != 0
    {
      ForgetWidgets(extra);
      ForgetRoot(extra);
      ok := HoldScene(scene, extra);
    }

    /** `refresh_game_scene`, where the runtime reports `scene` or null: a new scene takes nothing over from the old one. */
    method RefreshScene(scene: Object) returns (ok: bool)
      requires Valid()
      modifies this`handles, this`sceneHandle, this`rootHandle, this`labelHandle, this`valueHandle, this`styleApplied, this`faults
      ensures Blamed(ok || scene == 0, old(faults))
      ensures Valid()
      ensures ok ==> Target(sceneHandle) == scene != 0
      ensures Target(sceneHandle) == old(Target(sceneHandle)) ||
              (rootHandle == labelHandle == valueHandle == 0 && !styleApplied)
    {
      ghost var before := handles;
      var pin := PinNew();
      if pin == 0 {
        return false;
      }
      if scene == 0 || Target(sceneHandle) == scene {
        Unpin(pin);
        assert handles == before;
        return scene != 0;
      }
      ok := ChangeScene(scene, {pin});
      Unpin(pin);
    }

    /** Widgets never outlive the root they belong to. */
    method RefreshRoot(root: Object) returns (ok: bool)
      requires Valid() && root != 0
      modifies this`handles, this`rootHandle, this`labelHandle, this`valueHandle, this`styleApplied, this`faults
      ensures Blamed(ok, old(faults))
      ensures Valid()
      ensures ok ==> Target(rootHandle) == root
      ensures Target(sceneHandle) == old(Target(sceneHandle))
      ensures Target(rootHandle) == old(Target(rootHandle)) || (labelHandle == valueHandle == 0 && !styleApplied)
    {
      ok := true;
      if Target(rootHandle) != root {
        ok := HoldRoot(root, {});
        if ok {
          ForgetWidgets({});
        }
      }
    }

    // ---------- Updating ----------

    method UpdatePlace(o: Object, goal: Style) returns (ok: bool)
      requires o in widgets
      modifies this`widgets, this`faults
      ensures Blamed(ok, old(faults))
      ensures ok ==> widgets == old(widgets)[o := old(widgets)[o].(style := old(widgets)[o].style.(x := goal.x, y := goal.y))]
      ensures Restyled(old(widgets), widgets, o)
    {
      Unstyled(widgets, o);
      var x := SetDirect(o, X(goal.x));
      var y := SetDirect(o, Y(goal.y));
      ok := x && y;
      assert widgets == old(widgets)[o := old(widgets)[o].(style := widgets[o].style)];
    }

    /** Sets the chosen properties, going on after a failure. */
    method UpdateWidget(o: Object, goal: Style, c: Changes) returns (ok: bool)
      requires o in widgets && 0 !in handles
      modifies this`widgets, this`handles, this`faults
      ensures Blamed(ok, old(faults))
      ensures handles == old(handles)
      ensures ok ==> widgets == old(widgets)[o := old(widgets)[o].(style := Selective(old(widgets)[o].style, goal, c))]
      ensures Restyled(old(widgets), widgets, o)
    {
      ok := true;
      Unstyled(widgets, o);
      if c.font {
        ok := SetInvoked(o, Font(goal.font));
      }
      if c.color {
        ghost var before := widgets;
        var done := SetColor(o, goal.color);
        ok := ok && done;
        RestyledAgain(old(widgets), before, widgets, o);
      }
      if c.text {
        ghost var before := widgets;
        var done := SetText(o, goal.text);
        ok := ok && done;
        RestyledAgain(old(widgets), before, widgets, o);
      }
      if c.place {
        ghost var before := widgets;
        var done := UpdatePlace(o, goal);
        ok := ok && done;
        RestyledAgain(old(widgets), before, widgets, o);
      }
    }

    // ---------- Applying a packet ----------

    method HoldLabel(root: Object, existing: Object, made: Widget, ghost extra: set<Handle>) returns (ok: bool, o: Object)
      requires Pinned(extra) && 0 !in widgets && made.home == root
      requires existing != 0 ==> existing in widgets
      modifies this`handles, this`labelHandle, this`widgets, this`faults
      ensures Blamed(ok, old(faults))
      ensures Pinned(extra) && 0 !in widgets
      ensures Target(sceneHandle) == old(Target(sceneHandle))
      ensures Target(rootHandle) == old(Target(rootHandle)) && Target(valueHandle) == old(Target(valueHandle))
      ensures !ok ==> labelHandle == old(labelHandle) && handles == old(handles) && Extends(old(widgets), widgets)
      ensures ok ==> labelHandle != 0 && Target(labelHandle) == o && Ensured(old(widgets), existing, o, made)
    {
      ok, o, labelHandle := EnsureWidget(root, existing, made, labelHandle);
    }

    method HoldValue(root: Object, existing: Object, made: Widget, ghost extra: set<Handle>) returns (ok: bool, o: Object)
      requires Pinned(extra) && 0 !in widgets && made.home == root
      requires existing != 0 ==> existing in widgets
      modifies this`handles, this`valueHandle, this`widgets, this`faults
      ensures Blamed(ok, old(faults))
      ensures Pinned(extra) && 0 !in widgets
      ensures Target(sceneHandle) == old(Target(sceneHandle))
      ensures Target(rootHandle) == old(Target(rootHandle)) && Target(labelHandle) == old(Target(labelHandle))
      ensures !ok ==> valueHandle == old(valueHandle) && handles == old(handles) && Extends(old(widgets), widgets)
      ensures ok ==> valueHandle != 0 && Target(valueHandle) == o && Ensured(old(widgets), existing, o, made)
    {
      ok, o, valueHandle := EnsureWidget(root, existing, made, valueHandle);
    }

    /** `Valid`, with temporary pins. */
    ghost predicate ValidWith(extra: set<Handle>)
      reads this`handles, this`widgets, this`sceneHandle, this`rootHandle, this`labelHandle, this`valueHandle,
            this`styleApplied, this`appliedConfig, this`appliedLayout
    {
      && 0 !in widgets && Pinned(extra) && Holds(labelHandle, LABEL_ID) && Holds(valueHandle, VALUE_ID) && StyleHolds()
    }

    ghost predicate Under(scene: Object, root: Object)
      reads this`handles, this`sceneHandle, this`rootHandle
    {
      Target(sceneHandle) == scene && Target(rootHandle) == root
    }

    /** What was found in place of a widget: the held one, else one in the tree, else null. */
    ghost predicate FoundAs(o: Object, h: Handle, id: string, root: Object)
      reads this`handles, this`widgets
    {
      && (o != 0 ==> o in widgets && widgets[o].name == id && widgets[o].home == root)
      && (Target(h) != 0 ==> o == Target(h))
    }

    ghost predicate Placed(o: Object, h: Handle, id: string, root: Object)
      reads this`handles, this`widgets
    {
      h != 0 && Target(h) == o && o in widgets && widgets[o].name == id && widgets[o].home == root
    }

    method HoldBoth(root: Object, label0: Object, value0: Object, label1: Widget, value1: Widget,
                    ghost scene: Object, ghost extra: set<Handle>)
        returns (ok: bool, caption: Object, number: Object)
      requires ValidWith(extra) && Under(scene, root)
      requires FoundAs(label0, labelHandle, LABEL_ID, root) && FoundAs(value0, valueHandle, VALUE_ID, root)
      requires label1.name == LABEL_ID && value1.name == VALUE_ID && label1.home == value1.home == root
      modifies this`handles, this`labelHandle, this`valueHandle, this`widgets, this`faults
      ensures Blamed(ok, old(faults))
      ensures ValidWith(extra) && Under(scene, root)
      ensures ok ==> Placed(caption, labelHandle, LABEL_ID, root) && Placed(number, valueHandle, VALUE_ID, root)
      ensures ok ==> widgets[caption] == (if label0 == 0 then label1 else old(widgets)[label0]) && (label0 != 0 ==> caption == label0)
      ensures ok ==> widgets[number] == (if value0 == 0 then value1 else old(widgets)[value0]) && (value0 != 0 ==> number == value0)
    {
      caption, number := 0, 0;
      ok, caption := HoldLabel(root, label0, label1, extra);
      if !ok {
        return;
      }
      assert Placed(caption, labelHandle, LABEL_ID, root);
      ok, number := HoldValue(root, value0, value1, extra);
    }

    method UpdateBoth(caption: Object, number: Object, root: Object, labelGoal: Style, valueGoal: Style,
                      newLabel: bool, newValue: bool, labelChanges: Changes, valueChanges: Changes)
        returns (ok: bool)
      requires 0 !in handles && 0 !in widgets
      requires Placed(caption, labelHandle, LABEL_ID, root) && Placed(number, valueHandle, VALUE_ID, root)
      modifies this`handles, this`widgets, this`faults
      ensures Blamed(ok, old(faults))
      ensures handles == old(handles) && 0 !in widgets
      ensures Placed(caption, labelHandle, LABEL_ID, root) && Placed(number, valueHandle, VALUE_ID, root)
      ensures ok ==> widgets[caption].style == (var s := old(widgets)[caption].style;
                                                if newLabel then s else Selective(s, labelGoal, labelChanges))
      ensures ok ==> widgets[number].style == (var s := old(widgets)[number].style;
                                               if newValue then s else Selective(s, valueGoal, valueChanges))
    {
      ok := true;
      if !newLabel {
        ok := UpdateWidget(caption, labelGoal, labelChanges);
      }
      if !newValue {
        var done := UpdateWidget(number, valueGoal, valueChanges);
        ok := ok && done;
      }
    }

    /** The two widgets show `frame` as a build from scratch would. */
    ghost predicate Shows(frame: Frame)
      reads this`handles, this`widgets, this`rootHandle, this`labelHandle, this`valueHandle
    {
      var layout, root := layoutOf(frame.config, frame.loading), Target(rootHandle);
      && Placed(Target(labelHandle), labelHandle, LABEL_ID, root) && Placed(Target(valueHandle), valueHandle, VALUE_ID, root)
      && widgets[Target(labelHandle)].style == LabelStyle(frame.config, layout)
      && widgets[Target(valueHandle)].style == ValueStyle(frame.config, layout, ValueText(frame))
    }

    /** What a player reads: the number itself, one label advance right of the label and level with it. */
    lemma ShownIsReadable(frame: Frame)
      requires Shows(frame)
      ensures var caption, number := widgets[Target(labelHandle)].style, widgets[Target(valueHandle)].style;
              var layout := layoutOf(frame.config, frame.loading);
              && (if frame.loading then number.text == "Loading" else Says(number.text, frame.fps))
              && (caption.text == "" <==> !frame.config.showLabel) && caption.text <= "FPS:"
              && caption.font == number.font == layout.fontSize
              && caption.x == layout.x && number.x == caption.x + layout.labelAdvance
              && caption.y == number.y == layout.y
              && caption.color == frame.config.labelColor && number.color == frame.config.valueColor
    {
      SignedSays(frame.fps);
    }

    /** What changed since the style was last applied; everything when none was. */
    function ChangesTo(layout: Layout, color: bool, text: bool): Changes
      reads this`styleApplied, this`appliedLayout
    {
      Changes(!styleApplied || layout.fontSize != appliedLayout.fontSize, color, text,
              !styleApplied || layout.x != appliedLayout.x || layout.y != appliedLayout.y ||
              layout.labelAdvance != appliedLayout.labelAdvance)
    }

    /** Setting what changed is setting everything. */
    lemma SelectiveIsEnough(config: Config, layout: Layout, text: string, caption: Style, number: Style)
      requires styleApplied ==> caption == LabelStyle(appliedConfig, appliedLayout)
      requires styleApplied ==> number == ValueStyle(appliedConfig, appliedLayout, number.text)
      ensures Selective(caption, LabelStyle(config, layout), LabelChanges(config, layout)) == LabelStyle(config, layout)
      ensures Selective(number, ValueStyle(config, layout, text), ValueChanges(config, layout)) ==
              ValueStyle(config, layout, text)
    {
    }

    function LabelChanges(config: Config, layout: Layout): Changes
      reads this`styleApplied, this`appliedConfig, this`appliedLayout
    {
      ChangesTo(layout, !styleApplied || config.labelColor != appliedConfig.labelColor,
                !styleApplied || config.showLabel != appliedConfig.showLabel)
    }

    /** The text of the value is set every time. */
    function ValueChanges(config: Config, layout: Layout): Changes
      reads this`styleApplied, this`appliedConfig, this`appliedLayout
    {
      ChangesTo(layout, !styleApplied || config.valueColor != appliedConfig.valueColor, true)
    }

    /** Updates what changed on held widgets, and remembers what was applied. */
    method UpdateHeld(frame: Frame, layout: Layout, root: Object, caption: Object, number: Object,
                      newLabel: bool, newValue: bool, ghost scene: Object, ghost extra: set<Handle>)
        returns (ok: bool)
      requires ValidWith(extra) && Under(scene, root) && layout == layoutOf(frame.config, frame.loading)
      requires Placed(caption, labelHandle, LABEL_ID, root) && Placed(number, valueHandle, VALUE_ID, root)
      requires newLabel ==> widgets[caption].style == LabelStyle(frame.config, layout)
      requires newValue ==> widgets[number].style == ValueStyle(frame.config, layout, ValueText(frame))
      modifies this`handles, this`widgets, this`styleApplied, this`appliedConfig, this`appliedLayout, this`faults
      ensures Blamed(ok, old(faults))
      ensures ValidWith(extra) && Under(scene, root)
      ensures ok ==> styleApplied && Shows(frame)
    {
      var config, text := frame.config, ValueText(frame);
      SelectiveIsEnough(config, layout, text, widgets[caption].style, widgets[number].style);
      ok := UpdateBoth(caption, number, root, LabelStyle(config, layout), ValueStyle(config, layout, text),
                       newLabel, newValue, LabelChanges(config, layout), ValueChanges(config, layout));
      styleApplied := ok;
      if ok {
        appliedConfig, appliedLayout := config, layout;
      }
    }

    /** From the widgets on: holds or makes both, then updates them. */
    method Compose(frame: Frame, layout: Layout, root: Object, label0: Object, value0: Object,
                   ghost scene: Object, ghost extra: set<Handle>)
        returns (ok: bool)
      requires ValidWith(extra) && Under(scene, root) && layout == layoutOf(frame.config, frame.loading)
      requires FoundAs(label0, labelHandle, LABEL_ID, root) && FoundAs(value0, valueHandle, VALUE_ID, root)
      modifies this`handles, this`widgets, this`labelHandle, this`valueHandle, this`styleApplied,
               this`appliedConfig, this`appliedLayout, this`faults
      ensures Blamed(ok, old(faults))
      ensures ValidWith(extra) && Under(scene, root)
      ensures ok ==> styleApplied && Shows(frame)
    {
      var caption: Object, number: Object := 0, 0;
      ok, caption, number := HoldBoth(root, label0, value0,
                                      Widget(LABEL_ID, root, 1, LabelStyle(frame.config, layout)),
                                      Widget(VALUE_ID, root, 0, ValueStyle(frame.config, layout, ValueText(frame))),
                                      scene, extra);
      if !ok {
        return;
      }
      var classFound := Outcome();
      if !classFound {
        return false;
      }
      ok := UpdateHeld(frame, layout, root, caption, number, label0 == 0, value0 == 0, scene, extra);
    }

    /** `apply_packet_on_render`, for a packet that decodes to `packet`, where the runtime reports a scene and a root or null. */
    method Apply(packet: Frame, decodes: bool, scene: Object, root: Object) returns (ok: bool)
      requires Valid()
      modifies this
      ensures Blamed(ok || !decodes || scene == 0 || root == 0, old(faults))
      ensures Valid()
      ensures ok ==> decodes && styleApplied && Shows(packet) && Under(scene, root)
    {
      if !decodes {
        return false;
      }
      ok := RefreshScene(scene);
      if !ok {
        return false;
      }
      if root == 0 {
        return false;
      }
      ok := RefreshRoot(root);
      if !ok {
        return false;
      }
      ok := ApplyUnder(packet, root, scene);
    }

    method Locate(h: Handle, id: string, root: Object) returns (o: Object)
      requires Pinned({}) && 0 !in widgets && (h == 0 || h in handles)
      requires h != 0 ==> Target(h) in widgets && widgets[Target(h)].name == id && widgets[Target(h)].home == root
      modifies this`handles, this`faults
      ensures faults >= old(faults)
      ensures handles == old(handles) && FoundAs(o, h, id, root)
    {
      o := Target(h);
      if o == 0 {
        o := FindWidget(root, id);
      }
    }

    method ApplyUnder(frame: Frame, root: Object, ghost scene: Object) returns (ok: bool)
      requires Valid() && root != 0 && Under(scene, root)
      modifies this`handles, this`widgets, this`labelHandle, this`valueHandle, this`styleApplied,
               this`appliedConfig, this`appliedLayout, this`faults
      ensures Blamed(ok, old(faults))
      ensures Valid() && Under(scene, root)
      ensures ok ==> styleApplied && Shows(frame)
    {
      var layout := layoutOf(frame.config, frame.loading);
      var label0 := Locate(labelHandle, LABEL_ID, root);
      var value0 := Locate(valueHandle, VALUE_ID, root);
      if label0 == 0 || value0 == 0 || !styleApplied || layout.fontSize != appliedLayout.fontSize {
        ok := ComposeWithFont(frame, layout, root, label0, value0, scene);
      } else {
        ok := Compose(frame, layout, root, label0, value0, scene, {});
      }
    }

    method ComposeWithFont(frame: Frame, layout: Layout, root: Object, label0: Object, value0: Object,
                           ghost scene: Object) returns (ok: bool)
      requires Valid() && Under(scene, root) && layout == layoutOf(frame.config, frame.loading)
      requires FoundAs(label0, labelHandle, LABEL_ID, root) && FoundAs(value0, valueHandle, VALUE_ID, root)
      modifies this`handles, this`widgets, this`labelHandle, this`valueHandle, this`styleApplied,
               this`appliedConfig, this`appliedLayout, this`faults
      ensures Blamed(ok, old(faults))
      ensures Valid() && Under(scene, root)
      ensures ok ==> styleApplied && Shows(frame)
    {
      var font := CreateFont();
      if font == 0 {
        return false;
      }
      ok := Compose(frame, layout, root, label0, value0, scene, {font});
      DropFont(font, frame, scene, root);
    }

    method DropFont(font: Handle, ghost frame: Frame, ghost scene: Object, ghost root: Object)
      requires ValidWith({font}) && Under(scene, root)
      modifies this`handles
      ensures Valid() && Under(scene, root) && (old(Shows(frame)) ==> Shows(frame))
    {
      Unpin(font);
    }
  }

  /** Swapping while a temporary pin is live is swapping before it was taken. */
  lemma SwapThenUnpin(before: map<Handle, Object>, pin: Handle, h: Handle, h': Handle, o: Object)
    requires pin != 0 && pin !in before && h != pin && 0 !in before
    requires h' != 0 && (h' == h || h' !in before[pin := o])
    ensures Swapped(before, (before[pin := o] - {h})[h' := o] - {pin}, h, h', o)
  {
    assert h' != pin;
    assert (before[pin := o] - {h})[h' := o] - {pin} == (before - {h})[h' := o];
  }

  /** `after` holds everything `before` does, unchanged. */
  ghost predicate Extends(before: map<Object, Widget>, after: map<Object, Widget>)
  {
    forall o :: o in before ==> o in after && after[o] == before[o]
  }

  lemma Unstyled(widgets: map<Object, Widget>, o: Object)
    requires o in widgets
    ensures Restyled(widgets, widgets, o)
  {
    var s := widgets[o].style;
    assert widgets == widgets[o := widgets[o].(style := s)];
  }
}
