/** `hooks/useKeyboardShortcuts.ts` and `utils/keyboardShortcuts.ts`: the
    default shortcut table, the registry the hook keeps, the rule that picks
    the shortcut for a key event, the display strings and the handler map
    of the formatter. */
module Shortcuts {
  import opened Wrappers
  import opened Chars
  import opened JsonValue
  import opened Types
  import Store

  function Shortcut(id: string, key: string, modifiers: seq<Modifier>, description: string): KeyboardShortcut {
    KeyboardShortcut(id, key, modifiers, id, description, true)
  }

  /** `DEFAULT_SHORTCUTS` (the same table in both files). */
  const Defaults: seq<KeyboardShortcut> := [
    Shortcut("format", "Enter", [Ctrl], "Format JSON"),
    Shortcut("validate", "l", [Ctrl], "Validate JSON"),
    Shortcut("minify", "m", [Ctrl, Shift], "Minify JSON"),
    Shortcut("copy", "c", [Ctrl], "Copy to clipboard"),
    Shortcut("clear", "k", [Ctrl], "Clear all"),
    Shortcut("save", "s", [Ctrl], "Download JSON"),
    Shortcut("toggle-json5", "5", [Ctrl, Shift], "Toggle JSON5 mode"),
    Shortcut("indent-2", "2", [Ctrl, Shift], "Set 2-space indent"),
    Shortcut("indent-4", "4", [Ctrl, Shift], "Set 4-space indent"),
    Shortcut("indent-tab", "t", [Ctrl, Shift], "Set tab indent"),
    Shortcut("focus-input", "i", [Ctrl], "Focus input area"),
    Shortcut("focus-output", "o", [Ctrl], "Focus output area"),
    Shortcut("shortcuts", "/", [Ctrl], "Show keyboard shortcuts"),
    Shortcut("escape", "Escape", [], "Close modal/panel")
  ]

  // ---------------------------------------------------------------------
  // The key-event match rule

  datatype KeyEvent = KeyEvent(
    key: string,
    ctrlKey: bool,
    altKey: bool,
    shiftKey: bool,
    metaKey: bool,
    editableTarget: bool)

  /** The modifiers held down, in the order the handler collects them. */
  function Pressed(e: KeyEvent): (ms: seq<Modifier>)
    ensures Ctrl in ms <==> e.ctrlKey
    ensures Alt in ms <==> e.altKey
    ensures Shift in ms <==> e.shiftKey
    ensures Meta in ms <==> e.metaKey
  {
    (if e.ctrlKey then [Ctrl] else []) + (if e.altKey then [Alt] else [])
    + (if e.shiftKey then [Shift] else []) + (if e.metaKey then [Meta] else [])
  }

  /** A shortcut matches an event when it is enabled, its key equals the
      event's ignoring ASCII case, it lists as many modifiers as are held
      and every one it lists is held. */
  predicate MatchesEvent(s: KeyboardShortcut, e: KeyEvent) {
    && s.enabled
    && LowerStr(s.key) == LowerStr(e.key)
    && |s.modifiers| == |Pressed(e)|
    && forall m :: m in s.modifiers ==> m in Pressed(e)
  }

  /** The index of the first shortcut that matches (`Array.find`). */
  function FindMatch(list: seq<KeyboardShortcut>, e: KeyEvent): (r: Option<nat>)
    ensures r.Some? ==> r.value < |list| && MatchesEvent(list[r.value], e)
    ensures r.Some? ==> forall j :: 0 <= j < r.value ==> !MatchesEvent(list[j], e)
    ensures r.None? ==> forall j :: 0 <= j < |list| ==> !MatchesEvent(list[j], e)
    decreases |list|
  {
    if |list| == 0 then None
    else if MatchesEvent(list[0], e) then Some(0)
    else
      var r := FindMatch(list[1..], e);
      assert forall j :: 1 <= j < |list| ==> list[j] == list[1..][j - 1];
      if r.Some? then Some(r.value + 1) else None
  }

  /** While typing in an input, a text area or an editable element, only
      Ctrl with Escape or Enter gets through. */
  predicate PassesGuard(e: KeyEvent) {
    !e.editableTarget || ((e.key == "Escape" || e.key == "Enter") && e.ctrlKey)
  }

  /** `handleKeyDown`: the action whose handler runs, if any. `handlers`
      is the set of actions the handler map has an entry for. */
  function HandleKeyDown(enabled: bool, list: seq<KeyboardShortcut>, e: KeyEvent, handlers: set<string>): (r: Option<string>)
    ensures r.Some? ==> enabled && PassesGuard(e) && r.value in handlers
    ensures r.Some? ==> exists i :: 0 <= i < |list| && MatchesEvent(list[i], e) && list[i].action == r.value
    ensures r.Some? ==> FindMatch(list, e).Some? && r.value == list[FindMatch(list, e).value].action
    ensures e.editableTarget && r.Some? ==> e.ctrlKey && (e.key == "Escape" || e.key == "Enter")
    ensures enabled && PassesGuard(e) && FindMatch(list, e).Some? && list[FindMatch(list, e).value].action in handlers ==> r.Some?
  {
    if !enabled || !PassesGuard(e) then None
    else
      var m := FindMatch(list, e);
      if m.Some? && list[m.value].action in handlers then Some(list[m.value].action) else None
  }

  /** The lower-cased key of a shortcut, by its length and first letter:
      enough to tell the default keys apart. */
  function KeySignature(k: string): (int, char) {
    (|k|, if |k| > 0 then Lower(k[0]) else ' ')
  }

  lemma SignatureOfLower(a: string, b: string)
    requires LowerStr(a) == LowerStr(b)
    ensures KeySignature(a) == KeySignature(b)
  {
    if |a| > 0 {
      assert LowerStr(a)[0] == Lower(a[0]) && LowerStr(b)[0] == Lower(b[0]);
    }
  }

  lemma DefaultSignaturesDistinct()
    ensures forall i, j :: 0 <= i < j < |Defaults| ==> KeySignature(Defaults[i].key) != KeySignature(Defaults[j].key)
  {
    var sigs := [(5, 'e'), (1, 'l'), (1, 'm'), (1, 'c'), (1, 'k'), (1, 's'), (1, '5'),
                 (1, '2'), (1, '4'), (1, 't'), (1, 'i'), (1, 'o'), (1, '/'), (6, 'e')];
    assert forall i :: 0 <= i < |Defaults| ==> KeySignature(Defaults[i].key) == sigs[i];
  }

  /** At most one default shortcut matches any event, because no two
      default keys are the same ignoring case. */
  lemma DefaultsUnambiguous(e: KeyEvent, i: nat, j: nat)
    requires i < |Defaults| && j < |Defaults|
    requires MatchesEvent(Defaults[i], e) && MatchesEvent(Defaults[j], e)
    ensures i == j
  {
    SignatureOfLower(Defaults[i].key, Defaults[j].key);
    DefaultSignaturesDistinct();
  }

  /** Every default has its own id, its action is its id, and it starts
      enabled. */
  lemma DefaultsTable()
    ensures |Defaults| == 14
    ensures forall i :: 0 <= i < |Defaults| ==> Defaults[i].action == Defaults[i].id && Defaults[i].enabled
    ensures forall i, j :: 0 <= i < j < |Defaults| ==> Defaults[i].id != Defaults[j].id
  {
    var ids := ["format", "validate", "minify", "copy", "clear", "save", "toggle-json5",
                "indent-2", "indent-4", "indent-tab", "focus-input", "focus-output", "shortcuts", "escape"];
    assert forall i :: 0 <= i < |Defaults| ==> Defaults[i].id == ids[i];
    forall i, j | 0 <= i < j < |Defaults|
      ensures Defaults[i].id != Defaults[j].id
    {
      assert |ids[i]| != |ids[j]| || ids[i][0] != ids[j][0] || ids[i][|ids[i]| - 1] != ids[j][|ids[j]| - 1];
    }
  }

  // ---------------------------------------------------------------------
  // The registry the hook keeps. The list holds references: the objects of
  // the default table are shared with every list built from it, and
  // enabling or disabling a shortcut writes to the object itself.

  /** `heap` is every shortcut object there is, the first fourteen being
      the objects of the default table; `slots` is the list, as indices
      into `heap`. */
  datatype Registry = Registry(heap: seq<KeyboardShortcut>, slots: seq<nat>)

  predicate Valid(r: Registry) {
    && |r.heap| >= |Defaults|
    && InHeap(r.heap, r.slots)
    && Distinct(r.slots)
  }

  /** No object is in the list twice. */
  predicate Distinct(xs: seq<nat>) {
    forall i, j :: 0 <= i < j < |xs| ==> xs[i] != xs[j]
  }

  lemma DistinctCons(x: nat, xs: seq<nat>)
    requires Distinct(xs) && forall j :: 0 <= j < |xs| ==> xs[j] != x
    ensures Distinct([x] + xs)
  {
    var w := [x] + xs;
    forall i, j | 0 <= i < j < |w|
      ensures w[i] != w[j]
    {
      if i > 0 {
        assert w[i] == xs[i - 1] && w[j] == xs[j - 1];
      }
    }
  }

  predicate InHeap(heap: seq<KeyboardShortcut>, slots: seq<nat>) {
    forall i :: 0 <= i < |slots| ==> slots[i] < |heap|
  }

  /** The objects the slots refer to. */
  function Deref(heap: seq<KeyboardShortcut>, slots: seq<nat>): (v: seq<KeyboardShortcut>)
    requires InHeap(heap, slots)
    ensures |v| == |slots|
    ensures forall i :: 0 <= i < |v| ==> v[i] == heap[slots[i]]
    decreases |slots|
  {
    if |slots| == 0 then [] else [heap[slots[0]]] + Deref(heap, slots[1..])
  }

  /** The shortcuts the list shows. */
  function View(r: Registry): (v: seq<KeyboardShortcut>)
    requires Valid(r)
    ensures |v| == |r.slots|
    ensures forall i :: 0 <= i < |v| ==> v[i] == r.heap[r.slots[i]]
  {
    Deref(r.heap, r.slots)
  }

  function Range(a: nat, b: nat): (r: seq<nat>)
    requires a <= b
    ensures |r| == b - a
    ensures forall i :: 0 <= i < |r| ==> r[i] == a + i
  {
    seq(b - a, i requires 0 <= i < b - a => a + i)
  }

  /** `[...DEFAULT_SHORTCUTS]`: the list of the table's own objects. */
  const Initial: Registry := Registry(Defaults, Range(0, |Defaults|))

  lemma InitialView()
    ensures Valid(Initial) && View(Initial) == Defaults
  {
  }

  /** The first shortcut with the given id (`find`/`findIndex` on `id`). */
  function FindId(v: seq<KeyboardShortcut>, id: string): (r: Option<nat>)
    ensures r.Some? ==> r.value < |v| && v[r.value].id == id
    ensures r.Some? ==> forall j :: 0 <= j < r.value ==> v[j].id != id
    ensures r.None? ==> forall j :: 0 <= j < |v| ==> v[j].id != id
    decreases |v|
  {
    if |v| == 0 then None
    else if v[0].id == id then Some(0)
    else
      var r := FindId(v[1..], id);
      assert forall j :: 1 <= j < |v| ==> v[j] == v[1..][j - 1];
      if r.Some? then Some(r.value + 1) else None
  }

  /** The shortcut a lookup by id finds. */
  function ById(v: seq<KeyboardShortcut>, id: string): Option<KeyboardShortcut> {
    var k := FindId(v, id);
    if k.Some? then Some(v[k.value]) else None
  }

  /** The first entry with the id is at `k`. */
  lemma FindIdAt(v: seq<KeyboardShortcut>, id: string, k: nat)
    requires k < |v| && v[k].id == id
    requires forall j :: 0 <= j < k ==> v[j].id != id
    ensures FindId(v, id) == Some(k)
  {
  }

  /** `registerShortcut`: a shortcut with the same id is replaced in
      place, otherwise the new one goes at the end. */
  function Register(r: Registry, s: KeyboardShortcut): (r': Registry)
    requires Valid(r)
    ensures Valid(r')
    ensures FindId(View(r), s.id).Some? ==> View(r') == View(r)[FindId(View(r), s.id).value := s]
    ensures FindId(View(r), s.id).None? ==> View(r') == View(r) + [s]
  {
    var k := FindId(View(r), s.id);
    var next := |r.heap|;
    var at := if k.Some? then k.value else |r.slots|;
    var slots := if k.Some? then r.slots[at := next] else r.slots + [next];
    FreshSlotDistinct(r.slots, slots, next, at);
    Registry(r.heap + [s], slots)
  }

  /** A list that takes a new index, not in the old list, at one place
      (replacing or appending) keeps its entries distinct. */
  lemma FreshSlotDistinct(slots: seq<nat>, slots': seq<nat>, next: nat, at: nat)
    requires Distinct(slots) && forall i :: 0 <= i < |slots| ==> slots[i] < next
    requires at < |slots'| && slots'[at] == next
    requires forall i :: 0 <= i < |slots'| && i != at ==> i < |slots| && slots'[i] == slots[i]
    ensures Distinct(slots')
  {
    forall i, j | 0 <= i < j < |slots'|
      ensures slots'[i] != slots'[j]
    {
      if i != at && j != at {
        assert slots'[i] == slots[i] && slots'[j] == slots[j];
      }
    }
  }

  /** After registering, a lookup of its id finds the new shortcut and
      every other id finds what it found before. */
  lemma RegisterLookup(r: Registry, s: KeyboardShortcut, id: string)
    requires Valid(r)
    ensures ById(View(Register(r, s)), s.id) == Some(s)
    ensures id != s.id ==> ById(View(Register(r, s)), id) == ById(View(r), id)
  {
    var v, w := View(r), View(Register(r, s));
    var k := FindId(v, s.id);
    var at := if k.Some? then k.value else |v|;
    assert |w| > at && w[at] == s && forall j :: 0 <= j < |w| && j != at ==> w[j] == v[j];
    FindIdAt(w, s.id, at);
    if id != s.id {
      FindIdOthers(v, w, at, id);
    }
  }

  /** Lists that differ only at `at`, where neither has the id, find the
      id at the same place. */
  lemma FindIdOthers(v: seq<KeyboardShortcut>, w: seq<KeyboardShortcut>, at: nat, id: string)
    requires at < |w| && (|w| == |v| || |w| == |v| + 1)
    requires forall j :: 0 <= j < |w| && j != at ==> j < |v| && w[j] == v[j]
    requires w[at].id != id && (at < |v| ==> v[at].id != id)
    ensures FindId(w, id) == FindId(v, id)
  {
    var kk := FindId(v, id);
    if kk.Some? {
      FindIdAt(w, id, kk.value);
    } else {
      assert forall j :: 0 <= j < |w| ==> w[j].id != id;
    }
  }

  /** The reference list filter, `filter(s => s.id !== id)`. */
  function Without(v: seq<KeyboardShortcut>, id: string): (w: seq<KeyboardShortcut>)
    ensures forall j :: 0 <= j < |w| ==> w[j].id != id && w[j] in v
    decreases |v|
  {
    if |v| == 0 then []
    else if v[0].id == id then Without(v[1..], id)
    else [v[0]] + Without(v[1..], id)
  }

  function WithoutSlots(heap: seq<KeyboardShortcut>, slots: seq<nat>, id: string): (w: seq<nat>)
    requires InHeap(heap, slots)
    ensures InHeap(heap, w)
    ensures forall j :: 0 <= j < |w| ==> w[j] in slots
    decreases |slots|
  {
    if |slots| == 0 then []
    else if heap[slots[0]].id == id then WithoutSlots(heap, slots[1..], id)
    else [slots[0]] + WithoutSlots(heap, slots[1..], id)
  }

  /** Filtering the slots shows the filtered list. */
  lemma {:induction false} WithoutSlotsView(heap: seq<KeyboardShortcut>, slots: seq<nat>, id: string)
    requires InHeap(heap, slots)
    ensures Deref(heap, WithoutSlots(heap, slots, id)) == Without(Deref(heap, slots), id)
    decreases |slots|
  {
    if |slots| > 0 {
      WithoutSlotsView(heap, slots[1..], id);
      var rest := WithoutSlots(heap, slots[1..], id);
      assert Deref(heap, slots)[1..] == Deref(heap, slots[1..]);
      if heap[slots[0]].id != id {
        assert Deref(heap, [slots[0]] + rest) == [heap[slots[0]]] + Deref(heap, rest);
      }
    }
  }

  lemma {:induction false} WithoutSlotsDistinct(heap: seq<KeyboardShortcut>, slots: seq<nat>, id: string)
    requires InHeap(heap, slots)
    requires Distinct(slots)
    ensures Distinct(WithoutSlots(heap, slots, id))
    decreases |slots|
  {
    if |slots| > 0 {
      assert Distinct(slots[1..]);
      WithoutSlotsDistinct(heap, slots[1..], id);
      var rest := WithoutSlots(heap, slots[1..], id);
      if heap[slots[0]].id != id {
        forall j | 0 <= j < |rest|
          ensures rest[j] != slots[0]
        {
          assert rest[j] in slots[1..];
        }
        DistinctCons(slots[0], rest);
      }
    }
  }

  /** `unregisterShortcut`: the list loses every shortcut with the id. */
  function Unregister(r: Registry, id: string): (r': Registry)
    requires Valid(r)
    ensures Valid(r')
    ensures View(r') == Without(View(r), id)
  {
    var w := WithoutSlots(r.heap, r.slots, id);
    WithoutSlotsView(r.heap, r.slots, id);
    WithoutSlotsDistinct(r.heap, r.slots, id);
    Registry(r.heap, w)
  }

  /** After unregistering, nothing has the id, and every other id finds
      what it found before. */
  lemma {:induction false} WithoutLookup(v: seq<KeyboardShortcut>, id: string, other: string)
    ensures ById(Without(v, id), id) == None
    ensures other != id ==> ById(Without(v, id), other) == ById(v, other)
    decreases |v|
  {
    var w := Without(v, id);
    assert FindId(w, id).None?;
    if |v| > 0 && other != id {
      WithoutLookup(v[1..], id, other);
      if v[0].id != id {
        assert w == [v[0]] + Without(v[1..], id);
        if v[0].id != other {
          FindIdSkip(v[0], Without(v[1..], id), other);
          FindIdSkip(v[0], v[1..], other);
          assert v == [v[0]] + v[1..];
        } else {
          FindIdAt(w, other, 0);
          FindIdAt(v, other, 0);
        }
      }
    }
  }

  /** An entry without the id in front shifts the search by one. */
  lemma FindIdSkip(x: KeyboardShortcut, v: seq<KeyboardShortcut>, id: string)
    requires x.id != id
    ensures FindId(v, id).None? ==> FindId([x] + v, id).None?
    ensures FindId(v, id).Some? ==> FindId([x] + v, id) == Some(FindId(v, id).value + 1)
  {
    var u := [x] + v;
    var a := FindId(v, id);
    if a.Some? {
      assert u[a.value + 1] == v[a.value];
      assert forall j :: 1 <= j < a.value + 1 ==> u[j] == v[j - 1];
      FindIdAt(u, id, a.value + 1);
    } else {
      assert forall j :: 1 <= j < |u| ==> u[j] == v[j - 1];
    }
  }

  /** `enableShortcut`/`disableShortcut`: the first shortcut with the id
      has its flag set, on the object itself. */
  function SetEnabled(r: Registry, id: string, flag: bool): (r': Registry)
    requires Valid(r)
    ensures Valid(r') && r'.slots == r.slots && |r'.heap| == |r.heap|
    ensures FindId(View(r), id).None? ==> r' == r
    ensures FindId(View(r), id).Some? ==>
      var k := FindId(View(r), id).value;
      View(r') == View(r)[k := View(r)[k].(enabled := flag)]
  {
    var k := FindId(View(r), id);
    if k.None? then r
    else
      var o := r.slots[k.value];
      var x := r.heap[o].(enabled := flag);
      DerefUpdate(r.heap, r.slots, k.value, x);
      Registry(r.heap[o := x], r.slots)
  }

  /** Writing to the object in one slot changes that slot only. */
  lemma DerefUpdate(heap: seq<KeyboardShortcut>, slots: seq<nat>, k: nat, x: KeyboardShortcut)
    requires InHeap(heap, slots) && Distinct(slots) && k < |slots|
    ensures InHeap(heap[slots[k] := x], slots)
    ensures Deref(heap[slots[k] := x], slots) == Deref(heap, slots)[k := x]
  {
    var o := slots[k];
    assert forall i :: 0 <= i < |slots| && i != k ==> slots[i] != o;
  }

  /** Setting the flag touches nothing but that flag: the ids in the list
      stay, and a lookup by id finds the same shortcut with the new flag. */
  lemma SetEnabledLookup(r: Registry, id: string, flag: bool)
    requires Valid(r)
    ensures ById(View(SetEnabled(r, id, flag)), id) ==
      (var o := ById(View(r), id); if o.Some? then Some(o.value.(enabled := flag)) else None)
  {
    var v, w := View(r), View(SetEnabled(r, id, flag));
    var k := FindId(v, id);
    if k.Some? {
      FindIdAt(w, id, k.value);
    }
  }

  /** `resetShortcuts` as written: the list is the table's own objects
      again, with whatever flags they were given since. */
  function Reset(r: Registry): (r': Registry)
    requires Valid(r)
    ensures Valid(r') && r'.heap == r.heap
    ensures View(r') == r.heap[..|Defaults|]
  {
    Registry(r.heap, Range(0, |Defaults|))
  }

  /** A default shortcut disabled before a reset stays disabled after it
      (the list held the table's own objects, and the reset hands the same
      objects back), so the reset does not bring back the default table. */
  lemma DisabledSurvivesReset(id: string)
    requires FindId(Defaults, id).Some?
    ensures ById(View(Reset(SetEnabled(Initial, id, false))), id)
            == Some(ById(Defaults, id).value.(enabled := false))
    ensures View(Reset(SetEnabled(Initial, id, false))) != Defaults
  {
    InitialView();
    var r := SetEnabled(Initial, id, false);
    assert Reset(r) == r;
    DefaultsEnabled(FindId(Defaults, id).value);
    DisableShows(Defaults, id);
  }

  lemma DefaultsEnabled(k: nat)
    requires k < |Defaults|
    ensures Defaults[k].enabled
  {
    DefaultsTable();
  }

  /** Disabling an enabled entry is seen by a lookup and changes the list. */
  lemma DisableShows(v: seq<KeyboardShortcut>, id: string)
    requires FindId(v, id).Some? && v[FindId(v, id).value].enabled
    ensures var k := FindId(v, id).value;
      var w := v[k := v[k].(enabled := false)];
      ById(w, id) == Some(v[k].(enabled := false)) && w != v
  {
    var k := FindId(v, id).value;
    var w := v[k := v[k].(enabled := false)];
    FindIdAt(w, id, k);
    assert w[k] != v[k];
  }

  /** The intended reset: fresh copies of the table, so the table's
      objects are never written to. */
  function ResetFixed(r: Registry): (r': Registry)
    requires Valid(r)
    ensures Valid(r') && View(r') == Defaults
  {
    Registry(r.heap + Defaults, Range(|r.heap|, |r.heap| + |Defaults|))
  }

  /** `getShortcutForAction`: the first shortcut bound to the action. */
  function ForAction(v: seq<KeyboardShortcut>, action: string): (r: Option<KeyboardShortcut>)
    ensures r.Some? ==> r.value in v && r.value.action == action
    ensures r.Some? ==> exists k :: 0 <= k < |v| && v[k] == r.value
                          && forall j :: 0 <= j < k ==> v[j].action != action
    ensures r.None? <==> forall j :: 0 <= j < |v| ==> v[j].action != action
    decreases |v|
  {
    if |v| == 0 then None
    else if v[0].action == action then Some(v[0])
    else
      assert forall j :: 1 <= j < |v| ==> v[j] == v[1..][j - 1];
      var r := ForAction(v[1..], action);
      if r.Some? then
        var k :| 0 <= k < |v| - 1 && v[1..][k] == r.value && forall j :: 0 <= j < k ==> v[1..][j].action != action;
        assert v[k + 1] == r.value && forall j :: 0 <= j < k + 1 ==> v[j].action != action;
        r
      else r
  }

  /** The operations of the hook, the reset being the intended one. */
  datatype RegistryOp =
    | RegisterOp(shortcut: KeyboardShortcut)
    | UnregisterOp(id: string)
    | EnableOp(id: string)
    | DisableOp(id: string)
    | ResetOp

  function Apply(r: Registry, op: RegistryOp): (r': Registry)
    requires Valid(r)
    ensures Valid(r')
    ensures op.ResetOp? ==> View(r') == Defaults
  {
    match op
    case RegisterOp(s) => Register(r, s)
    case UnregisterOp(id) => Unregister(r, id)
    case EnableOp(id) => SetEnabled(r, id, true)
    case DisableOp(id) => SetEnabled(r, id, false)
    case ResetOp => ResetFixed(r)
  }

  function ApplyAll(r: Registry, ops: seq<RegistryOp>): (r': Registry)
    requires Valid(r)
    ensures Valid(r')
    decreases |ops|
  {
    if |ops| == 0 then r else ApplyAll(Apply(r, ops[0]), ops[1..])
  }

  /** With the intended reset, whatever happened before a reset is
      forgotten. */
  lemma {:induction false} ResetForgets(r: Registry, before: seq<RegistryOp>, after: seq<RegistryOp>)
    requires Valid(r)
    ensures View(ApplyAll(r, before + [ResetOp] + after)) == View(ApplyAll(Initial, after))
    decreases |before|
  {
    InitialView();
    var ops := before + [ResetOp] + after;
    if |before| == 0 {
      assert ops == [ResetOp] + after;
      assert ops[0] == ResetOp && ops[1..] == after;
      assert ApplyAll(r, ops) == ApplyAll(ResetFixed(r), after);
      ApplySameView(ResetFixed(r), Initial, after);
    } else {
      assert ops[0] == before[0];
      assert ops[1..] == before[1..] + [ResetOp] + after;
      ResetForgets(Apply(r, before[0]), before[1..], after);
    }
  }

  /** Two registries that show the same list stay alike under any
      operations. */
  lemma {:induction false} ApplySameView(a: Registry, b: Registry, ops: seq<RegistryOp>)
    requires Valid(a) && Valid(b) && View(a) == View(b)
    ensures View(ApplyAll(a, ops)) == View(ApplyAll(b, ops))
    decreases |ops|
  {
    if |ops| > 0 {
      ApplySameView(Apply(a, ops[0]), Apply(b, ops[0]), ops[1..]);
    }
  }

  // ---------------------------------------------------------------------
  // Display strings

  /** The place of a modifier name in the display order. */
  function PartRank(part: string): nat {
    if part == "Ctrl" then 0 else if part == "Alt" then 1 else if part == "Shift" then 2 else 3
  }

  /** The modifier names, always in the order Ctrl, Alt, Shift, Cmd, each
      at most once. */
  function ModifierParts(mods: seq<Modifier>): (parts: seq<string>)
    ensures |parts| <= 4
    ensures forall i, j :: 0 <= i < j < |parts| ==> PartRank(parts[i]) < PartRank(parts[j])
    ensures forall p :: p in parts ==> p in ["Ctrl", "Alt", "Shift", "Cmd"]
    ensures "Ctrl" in parts <==> Ctrl in mods
    ensures "Alt" in parts <==> Alt in mods
    ensures "Shift" in parts <==> Shift in mods
    ensures "Cmd" in parts <==> Meta in mods
  {
    (if Ctrl in mods then ["Ctrl"] else []) + (if Alt in mods then ["Alt"] else [])
    + (if Shift in mods then ["Shift"] else []) + (if Meta in mods then ["Cmd"] else [])
  }

  /** The key names of the hook's table, looked up by the lower-cased key. */
  const HookKeyNames: seq<(string, string)> := [
    (" ", "Space"), ("enter", "Enter"), ("escape", "Esc"), ("backspace", "Backspace"),
    ("tab", "Tab"), ("delete", "Del"), ("arrowup", "↑"), ("arrowdown", "↓"),
    ("arrowleft", "←"), ("arrowright", "→")
  ]

  /** The key names of the utility's table, looked up by the key as is. */
  const UtilKeyNames: seq<(string, string)> := [
    (" ", "Space"), ("Enter", "Enter"), ("Escape", "Esc"), ("Backspace", "Backspace"),
    ("Tab", "Tab"), ("Delete", "Del"), ("ArrowUp", "↑"), ("ArrowDown", "↓"),
    ("ArrowLeft", "←"), ("ArrowRight", "→")
  ]

  /** How the key is shown: its table name when it has one, itself
      otherwise. `caseless` picks the hook's lookup. */
  function KeyLabel(key: string, caseless: bool): string {
    var found := if caseless then Lookup(HookKeyNames, LowerStr(key)) else Lookup(UtilKeyNames, key);
    if found.Some? then found.value else key
  }

  /** `formatShortcutDisplay`: the parts joined with " + ". */
  function Display(s: KeyboardShortcut, caseless: bool): string {
    Join(ModifierParts(s.modifiers) + [KeyLabel(s.key, caseless)], " + ")
  }

  /** Each piece followed by the separator. */
  function Prefixes(xs: seq<string>, sep: string): (r: string)
    ensures |r| >= |xs| * |sep|
    decreases |xs|
  {
    if |xs| == 0 then "" else xs[0] + sep + Prefixes(xs[1..], sep)
  }

  lemma {:induction false} JoinLast(xs: seq<string>, last: string, sep: string)
    ensures Join(xs + [last], sep) == Prefixes(xs, sep) + last
    decreases |xs|
  {
    if |xs| > 0 {
      JoinLast(xs[1..], last, sep);
      assert (xs + [last])[1..] == xs[1..] + [last];
    }
  }

  lemma EndsWithAppend(a: string, b: string)
    ensures EndsWith(a + b, b)
  {
    assert (a + b)[|a + b| - |b|..] == b;
  }

  lemma StartsWithAppend(a: string, p: string, b: string)
    requires StartsWith(a, p)
    ensures StartsWith(a + b, p)
  {
    assert (a + b)[..|p|] == a[..|p|];
  }

  /** With Ctrl held, the modifier names start with "Ctrl + ". */
  lemma CtrlLeads(mods: seq<Modifier>)
    requires Ctrl in mods
    ensures StartsWith(Prefixes(ModifierParts(mods), " + "), "Ctrl + ")
  {
    var parts := ModifierParts(mods);
    assert parts[0] == "Ctrl";
    var rest := Prefixes(parts[1..], " + ");
    assert Prefixes(parts, " + ") == "Ctrl" + " + " + rest;
    StartsWithAppend("Ctrl + ", "Ctrl + ", rest);
  }

  /** The display is every modifier name followed by " + ", then the key:
      it starts with "Ctrl + " exactly when Ctrl is held, and ends with the
      key's label. */
  lemma DisplayShape(s: KeyboardShortcut, caseless: bool)
    ensures Display(s, caseless) == Prefixes(ModifierParts(s.modifiers), " + ") + KeyLabel(s.key, caseless)
    ensures EndsWith(Display(s, caseless), KeyLabel(s.key, caseless))
    ensures Ctrl in s.modifiers ==> StartsWith(Display(s, caseless), "Ctrl + ")
    ensures |s.modifiers| == 0 ==> Display(s, caseless) == KeyLabel(s.key, caseless)
  {
    var parts := ModifierParts(s.modifiers);
    var name := KeyLabel(s.key, caseless);
    JoinLast(parts, name, " + ");
    EndsWithAppend(Prefixes(parts, " + "), name);
    if Ctrl in s.modifiers {
      CtrlLeads(s.modifiers);
      StartsWithAppend(Prefixes(parts, " + "), "Ctrl + ", name);
    }
    if |s.modifiers| == 0 {
      assert parts == [];
    }
  }

  predicate DistinctKeys(t: seq<(string, string)>) {
    forall a, b :: 0 <= a < b < |t| ==> t[a].0 != t[b].0
  }

  /** Lower-casing with every character given. */
  lemma LowerIs(s: string, t: string)
    requires |s| == |t| && forall i :: 0 <= i < |s| ==> Lower(s[i]) == t[i]
    ensures LowerStr(s) == t
  {
  }

  /** Entry by entry, the hook's table is the utility's with the keys
      lower-cased; neither table names a key twice. */
  lemma TablesMatch()
    ensures |HookKeyNames| == |UtilKeyNames|
    ensures forall i :: 0 <= i < |UtilKeyNames| ==>
      LowerStr(UtilKeyNames[i].0) == HookKeyNames[i].0 && UtilKeyNames[i].1 == HookKeyNames[i].1
    ensures DistinctKeys(HookKeyNames) && DistinctKeys(UtilKeyNames)
  {
    TablesLower();
    TablesDistinct();
  }

  lemma TablesLower()
    ensures forall i :: 0 <= i < |UtilKeyNames| ==> LowerStr(UtilKeyNames[i].0) == HookKeyNames[i].0
  {
    LowerIs(" ", " ");
    LowerIs("Enter", "enter");
    LowerIs("Escape", "escape");
    LowerIs("Backspace", "backspace");
    LowerIs("Tab", "tab");
    LowerIs("Delete", "delete");
    LowerIs("ArrowUp", "arrowup");
    LowerIs("ArrowDown", "arrowdown");
    LowerIs("ArrowLeft", "arrowleft");
    LowerIs("ArrowRight", "arrowright");
  }

  lemma TablesDistinct()
    ensures DistinctKeys(HookKeyNames) && DistinctKeys(UtilKeyNames)
  {
    forall a, b | 0 <= a < b < |HookKeyNames|
      ensures HookKeyNames[a].0 != HookKeyNames[b].0 && UtilKeyNames[a].0 != UtilKeyNames[b].0
    {
      var h, u := HookKeyNames[a].0, HookKeyNames[b].0;
      assert |h| != |u| || h[0] != u[0] || h[|h| - 1] != u[|u| - 1];
    }
  }

  /** The two tables name the same keys, differing only in case, so the
      two lookups agree on a key spelled as the utility's table spells it
      and on a key neither table names. */
  lemma KeyLabelsAgree(key: string)
    requires key in KeysOf(UtilKeyNames) || LowerStr(key) !in KeysOf(HookKeyNames)
    ensures KeyLabel(key, true) == KeyLabel(key, false)
  {
    if key in KeysOf(UtilKeyNames) {
      TablesMatch();
      var i :| 0 <= i < |UtilKeyNames| && UtilKeyNames[i].0 == key;
      LookupAt(HookKeyNames, i);
      LookupAt(UtilKeyNames, i);
    } else {
      if Lookup(UtilKeyNames, key).Some? {
        assert false;
      }
    }
  }

  /** A table with distinct keys finds each entry by its key. */
  lemma LookupAt(t: seq<(string, string)>, i: nat)
    requires i < |t|
    requires DistinctKeys(t)
    ensures Lookup(t, t[i].0) == Some(t[i].1)
  {
    var r := Lookup(t, t[i].0);
    var j :| 0 <= j < |t| && t[j] == (t[i].0, r.value);
  }

  lemma EscapeNamedByHook()
    ensures KeyLabel("escape", true) == "Esc"
  {
    LowerIs("escape", "escape");
    TablesMatch();
    LookupAt(HookKeyNames, 2);
  }

  lemma EscapeUnnamedByUtil()
    ensures KeyLabel("escape", false) == "escape"
  {
    forall i | 0 <= i < |UtilKeyNames|
      ensures UtilKeyNames[i].0 != "escape"
    {
      assert UtilKeyNames[i].0[0] != 'e';
    }
    assert "escape" !in KeysOf(UtilKeyNames);
  }

  /** Where the two versions part: a lower-case "escape" is shown as "Esc"
      by the hook and as itself by the utility. */
  lemma DisplaysDiffer()
    ensures Display(Shortcut("close", "escape", [], ""), true) == "Esc"
    ensures Display(Shortcut("close", "escape", [], ""), false) == "escape"
  {
    EscapeNamedByHook();
    EscapeUnnamedByUtil();
    DisplayShape(Shortcut("close", "escape", [], ""), true);
    DisplayShape(Shortcut("close", "escape", [], ""), false);
  }

  /** A one-character key other than the space has no table name. */
  lemma SingleUnnamed(k: string)
    requires |k| == 1 && k[0] != ' '
    ensures LowerStr(k) !in KeysOf(HookKeyNames)
  {
    var l := LowerStr(k);
    forall j | 0 <= j < |HookKeyNames|
      ensures HookKeyNames[j].0 != l
    {
      var h := HookKeyNames[j].0;
      assert |h| != 1 || h[0] == ' ';
    }
  }

  /** On the default table the two versions show the same strings. */
  lemma DefaultDisplaysAgree()
    ensures forall i :: 0 <= i < |Defaults| ==> Display(Defaults[i], true) == Display(Defaults[i], false)
  {
    forall i | 0 <= i < |Defaults|
      ensures Display(Defaults[i], true) == Display(Defaults[i], false)
    {
      var k := Defaults[i].key;
      if i == 0 {
        assert k == UtilKeyNames[1].0;
      } else if i == 13 {
        assert k == UtilKeyNames[2].0;
      } else {
        SingleUnnamed(k);
      }
      KeyLabelsAgree(k);
    }
  }

  // ---------------------------------------------------------------------
  // getFormattedShortcutsList

  /** The list's order: more modifiers first, then by key, with `Less`
      standing in for `localeCompare`. */
  predicate Precedes(a: KeyboardShortcut, b: KeyboardShortcut) {
    |a.modifiers| > |b.modifiers| || (|a.modifiers| == |b.modifiers| && LessEq(a.key, b.key))
  }

  predicate Ordered(xs: seq<KeyboardShortcut>) {
    forall i, j :: 0 <= i < j < |xs| ==> Precedes(xs[i], xs[j])
  }

  lemma PrecedesTotal(a: KeyboardShortcut, b: KeyboardShortcut)
    ensures Precedes(a, b) || Precedes(b, a)
  {
    LessEqTotal(a.key, b.key);
  }

  lemma PrecedesTransitive(a: KeyboardShortcut, b: KeyboardShortcut, c: KeyboardShortcut)
    requires Precedes(a, b) && Precedes(b, c)
    ensures Precedes(a, c)
  {
    if |a.modifiers| == |b.modifiers| == |c.modifiers| {
      LessEqTransitive(a.key, b.key, c.key);
    }
  }

  function Insert(s: KeyboardShortcut, xs: seq<KeyboardShortcut>): (r: seq<KeyboardShortcut>)
    ensures multiset(r) == multiset(xs) + multiset{s}
    decreases |xs|
  {
    if |xs| == 0 then [s]
    else if Precedes(s, xs[0]) then [s] + xs
    else
      assert xs == [xs[0]] + xs[1..];
      [xs[0]] + Insert(s, xs[1..])
  }

  /** The sort: a stable insertion sort under `Precedes`. */
  function Sort(xs: seq<KeyboardShortcut>): (r: seq<KeyboardShortcut>)
    ensures multiset(r) == multiset(xs)
    decreases |xs|
  {
    if |xs| == 0 then []
    else
      assert xs == [xs[0]] + xs[1..];
      Insert(xs[0], Sort(xs[1..]))
  }

  lemma {:induction false} InsertOrdered(s: KeyboardShortcut, xs: seq<KeyboardShortcut>)
    requires Ordered(xs)
    ensures Ordered(Insert(s, xs))
    decreases |xs|
  {
    var r := Insert(s, xs);
    if |xs| == 0 {
    } else if Precedes(s, xs[0]) {
      forall i, j | 0 <= i < j < |r|
        ensures Precedes(r[i], r[j])
      {
        if i == 0 && j > 1 {
          PrecedesTransitive(s, xs[0], xs[j - 1]);
        }
      }
    } else {
      PrecedesTotal(s, xs[0]);
      var rest := Insert(s, xs[1..]);
      InsertOrdered(s, xs[1..]);
      assert r == [xs[0]] + rest;
      forall j | 0 <= j < |rest|
        ensures Precedes(xs[0], rest[j])
      {
        assert rest[j] in multiset(rest);
        if rest[j] != s {
          assert rest[j] in multiset(xs[1..]);
          var m :| 0 <= m < |xs[1..]| && xs[1..][m] == rest[j];
          assert xs[m + 1] == rest[j];
        }
      }
    }
  }

  lemma {:induction false} SortOrdered(xs: seq<KeyboardShortcut>)
    ensures Ordered(Sort(xs))
    decreases |xs|
  {
    if |xs| > 0 {
      SortOrdered(xs[1..]);
      InsertOrdered(xs[0], Sort(xs[1..]));
    }
  }

  /** `filter(s => s.enabled)`. */
  function EnabledOnly(xs: seq<KeyboardShortcut>): (r: seq<KeyboardShortcut>)
    ensures forall i :: 0 <= i < |r| ==> r[i].enabled
    ensures forall x :: x in xs && x.enabled <==> x in r
    decreases |xs|
  {
    if |xs| == 0 then []
    else if xs[0].enabled then [xs[0]] + EnabledOnly(xs[1..])
    else EnabledOnly(xs[1..])
  }

  function Line(s: KeyboardShortcut, caseless: bool): string {
    Display(s, caseless) + ": " + s.description
  }

  /** `getFormattedShortcutsList`: one line per enabled shortcut, in the
      list's order. */
  function FormattedShortcuts(xs: seq<KeyboardShortcut>, caseless: bool): (r: seq<string>)
    ensures |r| == |EnabledOnly(xs)|
  {
    var sorted := Sort(EnabledOnly(xs));
    assert |sorted| == |multiset(sorted)| == |EnabledOnly(xs)|;
    seq(|sorted|, i requires 0 <= i < |sorted| => Line(sorted[i], caseless))
  }

  /** The lines are those of the enabled shortcuts, each exactly once, in
      an order where no line has fewer modifiers than a later one. */
  lemma FormattedShortcutsOrder(xs: seq<KeyboardShortcut>, caseless: bool)
    ensures var sorted := Sort(EnabledOnly(xs));
      && multiset(sorted) == multiset(EnabledOnly(xs))
      && Ordered(sorted)
      && (forall i :: 0 <= i < |sorted| ==> FormattedShortcuts(xs, caseless)[i] == Line(sorted[i], caseless))
      && (forall i, j :: 0 <= i < j < |sorted| ==> |sorted[i].modifiers| >= |sorted[j].modifiers|)
  {
    SortOrdered(EnabledOnly(xs));
  }

  // ---------------------------------------------------------------------
  // The handler map of the formatter's shortcuts

  /** The actions with a handler. */
  const Handled: set<string> := {
    "format", "minify", "validate", "clear", "copy", "save", "toggle-json5",
    "indent-2", "indent-4", "indent-tab", "shortcuts", "escape"
  }

  /** What a handler does to the store; `None` when the action has no
      handler. The processor's own work (formatting, copying, saving) is
      not part of the store and leaves it as it is. */
  function RunHandler(action: string, s: Store.JsonState): (r: Option<Store.JsonState>)
    ensures r.Some? <==> action in Handled
    ensures action == "toggle-json5" ==> r.Some? && r.value.formattingOptions.json5Mode != s.formattingOptions.json5Mode
    ensures action in {"indent-2", "indent-4"} ==> r.Some? && !r.value.formattingOptions.useTabs
    ensures action == "indent-tab" ==>
      r.Some? && r.value.formattingOptions.useTabs && r.value.formattingOptions.indentSize == s.formattingOptions.indentSize
    ensures action == "escape" ==> r.Some? && !r.value.showKeyboardShortcuts
    ensures action in {"format", "minify", "validate", "copy", "save"} ==> r == Some(s)
  {
    if action !in Handled then None
    else if action == "clear" then Some(Store.ClearAll(s))
    else if action == "toggle-json5" then
      Some(Store.SetFormattingOptions(s, Store.NoFormattingChange.(json5Mode := Some(!s.formattingOptions.json5Mode))))
    else if action == "indent-2" then
      Some(Store.SetFormattingOptions(s, Store.NoFormattingChange.(indentSize := Some(2), useTabs := Some(false))))
    else if action == "indent-4" then
      Some(Store.SetFormattingOptions(s, Store.NoFormattingChange.(indentSize := Some(4), useTabs := Some(false))))
    else if action == "indent-tab" then
      Some(Store.SetFormattingOptions(s, Store.NoFormattingChange.(useTabs := Some(true))))
    else if action == "shortcuts" then Some(Store.ToggleKeyboardShortcuts(s))
    else if action == "escape" then
      Some(if s.showKeyboardShortcuts then Store.ToggleKeyboardShortcuts(s) else s)
    else Some(s)
  }

  /** Every default shortcut has a handler except the two focus
      shortcuts, so pressing either of those does nothing. */
  lemma HandledDefaults()
    ensures forall i :: 0 <= i < |Defaults| ==>
      (Defaults[i].action in Handled <==> Defaults[i].action !in {"focus-input", "focus-output"})
  {
  }

  /** The indent shortcuts set the indent; pressing one twice is pressing
      it once; the shortcut key toggles the panel and escape only closes. */
  lemma HandlersSettle(s: Store.JsonState)
    ensures RunHandler("indent-2", s).value.formattingOptions.indentSize == 2
    ensures RunHandler("indent-4", s).value.formattingOptions.indentSize == 4
    ensures forall a :: a in {"indent-2", "indent-4", "indent-tab", "escape"} ==>
      RunHandler(a, RunHandler(a, s).value) == RunHandler(a, s)
    ensures RunHandler("shortcuts", RunHandler("shortcuts", s).value) == Some(s)
    ensures !s.showKeyboardShortcuts ==> RunHandler("escape", s) == Some(s)
  {
  }
}
