/**
 * The read-only part of a key table: contexts with their sorted key
 * bindings, sorted hotkeys and keyboard-emulation key maps, the ordering the
 * tables are sorted by, and the ordered lookups into them.
 */
module KeyContexts {
  import opened Options
  import opened KeyValues
  import opened BrlCommands

  /** The key code that stands for "any key of this group" in a binding pattern. */
  const KTB_KEY_MAX: bv8 := 0xFF
  /** A key map has an entry for every key code. */
  const KEY_MAP_SIZE: nat := KTB_KEY_MAX as nat + 1
  const MAX_MODIFIERS_PER_COMBINATION: nat := 10
  /** Binding flag: add the code of a pressed key to the command. */
  const KBF_ADJUST: bv8 := 0x01

  /** A key pattern: modifier keys and, when KCF_IMMEDIATE_KEY is set, an immediate key. */
  datatype KeyCombination = KeyCombination(modifierKeys: seq<KeyValue>, immediateKey: Option<KeyValue>)

  /** A binding of a combination to a command; EOF marks a prefix of longer combinations. */
  datatype KeyBinding = KeyBinding(combination: KeyCombination, command: Command, flags: bv8)

  /** A single key whose press and release issue commands of their own. */
  datatype HotkeyEntry = HotkeyEntry(keyValue: KeyValue, pressCommand: Command, releaseCommand: Command)

  /** What a key does when the pressed keys are read as a braille keyboard. */
  datatype KeyboardFunction =
    | NoFunction
    | Dot1 | Dot2 | Dot3 | Dot4 | Dot5 | Dot6 | Dot7 | Dot8
    | Space | Shift | Upper | Control | Meta

  /** keyboardFunctionTable: the command bit of each keyboard function (the space bar has none). */
  function FunctionBit(function': KeyboardFunction): bv32 {
    match function'
    case NoFunction => 0
    case Dot1 => BRL_DOT1
    case Dot2 => BRL_DOT2
    case Dot3 => BRL_DOT3
    case Dot4 => BRL_DOT4
    case Dot5 => BRL_DOT5
    case Dot6 => BRL_DOT6
    case Dot7 => BRL_DOT7
    case Dot8 => BRL_DOT8
    case Space => 0
    case Shift => BRL_FLG_CHAR_SHIFT
    case Upper => BRL_FLG_CHAR_UPPER
    case Control => BRL_FLG_CHAR_CONTROL
    case Meta => BRL_FLG_CHAR_META
  }

  /**
   * A key context. An empty binding or hotkey table stands for the NULL
   * table pointer of the C structure; `keyMap` is absent when the context
   * does not emulate a braille keyboard.
   */
  datatype KeyContext = KeyContext(
    sortedKeyBindings: seq<KeyBinding>,
    sortedHotkeyEntries: seq<HotkeyEntry>,
    keyMap: Option<seq<KeyboardFunction>>,
    superimposedBits: bv32,
    isTemporary: bool)

  /** Lexicographic ordering of two modifier arrays of the same length. */
  predicate ModifiersLess(a: seq<KeyValue>, b: seq<KeyValue>)
    decreases |a|
  {
    |a| > 0 && |b| > 0 && (KeyLess(a[0], b[0]) || (a[0] == b[0] && ModifiersLess(a[1..], b[1..])))
  }

  /** A combination without an immediate key sorts first; otherwise the immediate keys decide. */
  predicate ImmediateLess(a: Option<KeyValue>, b: Option<KeyValue>) {
    (a.None? && b.Some?) || (a.Some? && b.Some? && KeyLess(a.value, b.value))
  }

  /** compareKeyBindings: immediate key, then modifier count, then the modifiers themselves. */
  predicate CombinationLess(a: KeyCombination, b: KeyCombination) {
    || ImmediateLess(a.immediateKey, b.immediateKey)
    || (a.immediateKey == b.immediateKey &&
        (|a.modifierKeys| < |b.modifierKeys| ||
         (|a.modifierKeys| == |b.modifierKeys| && ModifiersLess(a.modifierKeys, b.modifierKeys))))
  }

  lemma {:induction false} ModifiersLessIrreflexive(a: seq<KeyValue>)
    ensures !ModifiersLess(a, a)
  {
    if |a| > 0 {
      ModifiersLessIrreflexive(a[1..]);
    }
  }

  lemma {:induction false} ModifiersLessTransitive(a: seq<KeyValue>, b: seq<KeyValue>, c: seq<KeyValue>)
    requires ModifiersLess(a, b) && ModifiersLess(b, c)
    ensures ModifiersLess(a, c)
  {
    if a[0] == b[0] && b[0] == c[0] {
      ModifiersLessTransitive(a[1..], b[1..], c[1..]);
    }
  }

  lemma {:induction false} ModifiersLessTotal(a: seq<KeyValue>, b: seq<KeyValue>)
    requires |a| == |b|
    ensures a == b || ModifiersLess(a, b) || ModifiersLess(b, a)
  {
    if |a| > 0 && a[0] == b[0] {
      ModifiersLessTotal(a[1..], b[1..]);
      if a[1..] == b[1..] {
        assert a == [a[0]] + a[1..] && b == [b[0]] + b[1..];
      }
    }
  }

  /** The binding ordering is a strict total order on combinations. */
  lemma CombinationLessIsStrictTotalOrder(a: KeyCombination, b: KeyCombination, c: KeyCombination)
    ensures !CombinationLess(a, a)
    ensures CombinationLess(a, b) && CombinationLess(b, c) ==> CombinationLess(a, c)
    ensures a == b || CombinationLess(a, b) || CombinationLess(b, a)
  {
    ModifiersLessIrreflexive(a.modifierKeys);
    if CombinationLess(a, b) && CombinationLess(b, c) && a.immediateKey == b.immediateKey == c.immediateKey
       && |a.modifierKeys| == |b.modifierKeys| == |c.modifierKeys| {
      ModifiersLessTransitive(a.modifierKeys, b.modifierKeys, c.modifierKeys);
    }
    if |a.modifierKeys| == |b.modifierKeys| {
      ModifiersLessTotal(a.modifierKeys, b.modifierKeys);
    }
  }

  lemma CombinationLessAsymmetric()
    ensures forall a, b :: CombinationLess(a, b) ==> !CombinationLess(b, a)
  {
    forall a, b | CombinationLess(a, b) ensures !CombinationLess(b, a) {
      CombinationLessIsStrictTotalOrder(a, b, a);
    }
  }

  /**
   * bsearch: look for an element whose key equals `target` in s[lo..hi],
   * which is sorted by the asymmetric relation `less`.
   */
  function BinarySearch<T, K(==,!new)>(s: seq<T>, key: T -> K, less: (K, K) -> bool, target: K, lo: nat, hi: nat): (r: Option<nat>)
    requires lo <= hi <= |s|
    requires forall a, b :: less(a, b) ==> !less(b, a)
    requires forall i, j :: lo <= i < j < hi ==> less(key(s[i]), key(s[j]))
    ensures r.Some? ==> lo <= r.value < hi && key(s[r.value]) == target
    ensures r.None? ==> forall i :: lo <= i < hi ==> key(s[i]) != target
    decreases hi - lo
  {
    if lo == hi then None
    else
      var mid := (lo + hi) / 2;
      var k := key(s[mid]);
      if k == target then Some(mid)
      else if less(target, k) then BinarySearch(s, key, less, target, lo, mid)
      else BinarySearch(s, key, less, target, mid + 1, hi)
  }

  predicate BindingsSorted(bindings: seq<KeyBinding>) {
    forall i, j :: 0 <= i < j < |bindings| ==> CombinationLess(bindings[i].combination, bindings[j].combination)
  }

  predicate HotkeysSorted(hotkeys: seq<HotkeyEntry>) {
    forall i, j :: 0 <= i < j < |hotkeys| ==> KeyLess(hotkeys[i].keyValue, hotkeys[j].keyValue)
  }

  /** What the table loader guarantees of every context. */
  predicate ValidContext(ctx: KeyContext) {
    && BindingsSorted(ctx.sortedKeyBindings)
    && HotkeysSorted(ctx.sortedHotkeyEntries)
    && (ctx.keyMap.Some? ==> |ctx.keyMap.value| == KEY_MAP_SIZE)
  }

  predicate ValidContexts(contexts: map<ContextId, KeyContext>) {
    forall id :: id in contexts ==> ValidContext(contexts[id])
  }

  function BindingCombination(binding: KeyBinding): KeyCombination {
    binding.combination
  }

  function HotkeyKeyValue(hotkey: HotkeyEntry): KeyValue {
    hotkey.keyValue
  }

  /** searchKeyBinding: the ordered lookup of a combination in a sorted binding table. */
  function SearchKeyBinding(bindings: seq<KeyBinding>, target: KeyCombination): (r: Option<KeyBinding>)
    requires BindingsSorted(bindings)
    ensures r.Some? ==> r.value in bindings && r.value.combination == target
    ensures r.None? ==> forall b :: b in bindings ==> b.combination != target
  {
    CombinationLessAsymmetric();
    var i := BinarySearch(bindings, BindingCombination, CombinationLess, target, 0, |bindings|);
    if i.Some? then Some(bindings[i.value]) else None
  }

  /** searchHotkeyEntry: the ordered lookup of a key value in a sorted hotkey table. */
  function SearchHotkeyEntry(hotkeys: seq<HotkeyEntry>, target: KeyValue): (r: Option<HotkeyEntry>)
    requires HotkeysSorted(hotkeys)
    ensures r.Some? ==> r.value in hotkeys && r.value.keyValue == target
    ensures r.None? ==> forall h :: h in hotkeys ==> h.keyValue != target
  {
    var i := BinarySearch(hotkeys, HotkeyKeyValue, KeyLess, target, 0, |hotkeys|);
    if i.Some? then Some(hotkeys[i.value]) else None
  }

  /** A sorted binding table binds each combination at most once. */
  lemma SortedBindingsUnique(bindings: seq<KeyBinding>, b1: KeyBinding, b2: KeyBinding)
    requires BindingsSorted(bindings)
    requires b1 in bindings && b2 in bindings
    requires b1.combination == b2.combination
    ensures b1 == b2
  {
    var i :| 0 <= i < |bindings| && bindings[i] == b1;
    var j :| 0 <= j < |bindings| && bindings[j] == b2;
    CombinationLessIsStrictTotalOrder(b1.combination, b1.combination, b1.combination);
    assert i == j;
  }
}
