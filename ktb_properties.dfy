/**
 * Properties of the key-table event engine, stated over the functions that
 * specify `KeyTable`'s operations: what the lookups find, what keyboard
 * emulation composes, how context switches and held commands behave, and
 * what an event does to the pressed keys.
 */
module KeyTranslateProperties {
  import opened Options
  import opened KeyValues
  import opened BrlCommands
  import opened KeyContexts
  import opened KeyTranslate

  // ---------------------------------------------------------------------
  // Binding lookup

  /** Two keys the search pattern cannot tell apart: same group, and the same code in group 0. */
  predicate SameForSearch(a: KeyValue, b: KeyValue) {
    a.group == b.group && (a.group == 0 ==> a.key == b.key)
  }

  /**
   * A binding whose combination is the search target is the one found:
   * bound when its command is not EOF, an incomplete combination otherwise.
   */
  lemma FindKeyBindingFindsBinding(contexts: map<ContextId, KeyContext>, context: ContextId,
                                   pressed: seq<KeyValue>, immediate: Option<KeyValue>, binding: KeyBinding)
    requires ValidContexts(contexts)
    requires context in contexts && |pressed| <= MAX_MODIFIERS_PER_COMBINATION
    requires binding in contexts[context].sortedKeyBindings
    requires binding.combination == SearchTarget(pressed, immediate)
    ensures FindKeyBinding(contexts, context, pressed, immediate) ==
            if binding.command != EOF then Bound(binding) else Incomplete
  {
    var bindings := contexts[context].sortedKeyBindings;
    match FindKeyBinding(contexts, context, pressed, immediate)
    case Bound(found) =>
      SortedBindingsUnique(bindings, found, binding);
    case Incomplete =>
      var other :| other in bindings && other.combination == SearchTarget(pressed, immediate) && other.command == EOF;
      SortedBindingsUnique(bindings, other, binding);
    case NoMatch =>
  }

  /** The lookup ignores the codes of keys outside group 0, pressed or immediate. */
  lemma FindKeyBindingIgnoresCodesOutsideGroupZero(contexts: map<ContextId, KeyContext>, context: ContextId,
                                                   pressed: seq<KeyValue>, pressed': seq<KeyValue>,
                                                   immediate: Option<KeyValue>, immediate': Option<KeyValue>)
    requires ValidContexts(contexts)
    requires |pressed| == |pressed'|
    requires forall i :: 0 <= i < |pressed| ==> SameForSearch(pressed[i], pressed'[i])
    requires immediate.Some? <==> immediate'.Some?
    requires immediate.Some? ==> SameForSearch(immediate.value, immediate'.value)
    ensures FindKeyBinding(contexts, context, pressed, immediate) == FindKeyBinding(contexts, context, pressed', immediate')
  {
    var target, target' := SearchTarget(pressed, immediate), SearchTarget(pressed', immediate');
    assert target.modifierKeys == target'.modifierKeys;
    assert target == target';
  }

  // ---------------------------------------------------------------------
  // Keyboard emulation

  /** The pressed keys can be read as a braille keyboard: all in group 0, all with a function. */
  ghost predicate AllEmulatable(keyMap: seq<KeyboardFunction>, pressed: seq<KeyValue>)
    requires |keyMap| == KEY_MAP_SIZE
  {
    forall k :: k in pressed ==> k.group == 0 && keyMap[k.key] != NoFunction
  }

  ghost predicate SomeDot(keyMap: seq<KeyboardFunction>, pressed: seq<KeyValue>)
    requires |keyMap| == KEY_MAP_SIZE
  {
    exists k :: k in pressed && IsDot(keyMap[k.key])
  }

  ghost predicate SomeSpace(keyMap: seq<KeyboardFunction>, pressed: seq<KeyValue>)
    requires |keyMap| == KEY_MAP_SIZE
  {
    exists k :: k in pressed && IsSpace(keyMap[k.key])
  }

  /** The scan succeeds exactly when every pressed key is in group 0 and has a function. */
  lemma {:induction false} ScanKeysEmulatable(keyMap: seq<KeyboardFunction>, pressed: seq<KeyValue>)
    requires |keyMap| == KEY_MAP_SIZE
    ensures ScanKeys(keyMap, pressed).emulatable <==> AllEmulatable(keyMap, pressed)
    decreases |pressed|
  {
    if pressed != [] {
      var prefix := pressed[..|pressed| - 1];
      ScanKeysEmulatable(keyMap, prefix);
      assert pressed == prefix + [pressed[|pressed| - 1]];
    }
  }

  /** A successful scan has seen a dot, and the space bar, exactly when one of the keys is one. */
  lemma {:induction false} ScanKeysPressed(keyMap: seq<KeyboardFunction>, pressed: seq<KeyValue>)
    requires |keyMap| == KEY_MAP_SIZE
    requires ScanKeys(keyMap, pressed).emulatable
    ensures ScanKeys(keyMap, pressed).dotPressed <==> SomeDot(keyMap, pressed)
    ensures ScanKeys(keyMap, pressed).spacePressed <==> SomeSpace(keyMap, pressed)
    decreases |pressed|
  {
    if pressed != [] {
      var prefix := pressed[..|pressed| - 1];
      ScanKeysPressed(keyMap, prefix);
      assert pressed == prefix + [pressed[|pressed| - 1]];
    }
  }

  /** The scanned bits include BRL_BLK_PASSDOTS... */
  lemma {:induction false} ScanBitsIncludePassDots(keyMap: seq<KeyboardFunction>, pressed: seq<KeyValue>)
    requires |keyMap| == KEY_MAP_SIZE
    ensures ScanBits(keyMap, pressed) & BRL_BLK_PASSDOTS == BRL_BLK_PASSDOTS
    decreases |pressed|
  {
    if pressed != [] {
      var prefix := pressed[..|pressed| - 1];
      ScanBitsIncludePassDots(keyMap, prefix);
      OrKeepsBits(ScanBits(keyMap, prefix), FunctionBit(keyMap[pressed[|pressed| - 1].key]), BRL_BLK_PASSDOTS);
    }
  }

  /** ...and the bit of every pressed key. */
  lemma {:induction false} ScanBitsIncludeKey(keyMap: seq<KeyboardFunction>, pressed: seq<KeyValue>, k: KeyValue)
    requires |keyMap| == KEY_MAP_SIZE
    requires k in pressed
    ensures ScanBits(keyMap, pressed) & FunctionBit(keyMap[k.key]) == FunctionBit(keyMap[k.key])
    decreases |pressed|
  {
    var prefix := pressed[..|pressed| - 1];
    var last := pressed[|pressed| - 1];
    if k != last {
      assert k in prefix by {
        assert pressed == prefix + [last];
      }
      ScanBitsIncludeKey(keyMap, prefix, k);
    }
    OrKeepsBits(ScanBits(keyMap, prefix), FunctionBit(keyMap[last.key]), FunctionBit(keyMap[k.key]));
  }

  /** An OR keeps the bits of either operand. */
  lemma OrKeepsBits(a: bv32, b: bv32, m: bv32)
    ensures a & m == m ==> (a | b) & m == m
    ensures b & m == m ==> (a | b) & m == m
  {
  }

  /** `bits` has no bit outside `mask`. */
  predicate WithinMask(bits: bv32, mask: bv32) {
    bits & !mask == 0
  }

  /** ...and has no others: any mask covering BRL_BLK_PASSDOTS and every pressed key's bit covers the bits. */
  lemma {:induction false} ScanBitsLeast(keyMap: seq<KeyboardFunction>, pressed: seq<KeyValue>, mask: bv32)
    requires |keyMap| == KEY_MAP_SIZE
    requires WithinMask(BRL_BLK_PASSDOTS, mask)
    requires forall k :: k in pressed ==> WithinMask(FunctionBit(keyMap[k.key]), mask)
    ensures WithinMask(ScanBits(keyMap, pressed), mask)
    decreases |pressed|
  {
    if pressed != [] {
      var prefix := pressed[..|pressed| - 1];
      var last := pressed[|pressed| - 1];
      PrefixMembers(pressed);
      ScanBitsLeast(keyMap, prefix, mask);
      OrWithinMask(ScanBits(keyMap, prefix), FunctionBit(keyMap[last.key]), mask);
    }
  }

  /** Every key of a non-empty sequence's prefix, and its last key, are in it. */
  lemma PrefixMembers(pressed: seq<KeyValue>)
    requires pressed != []
    ensures forall k :: k in pressed[..|pressed| - 1] ==> k in pressed
    ensures pressed[|pressed| - 1] in pressed
  {
  }

  /** Two values within a mask have their OR within it. */
  lemma OrWithinMask(a: bv32, b: bv32, m: bv32)
    requires WithinMask(a, m) && WithinMask(b, m)
    ensures WithinMask(a | b, m)
  {
  }

  /**
   * A keyboard command made with a dot pressed carries the context's
   * superimposed bits, and one made for a chord request with the space bar
   * carries BRL_DOTC.
   */
  lemma ScannedCommandFlags(scan: KeyScan, bits: Command, chordsRequested: bool, superimposedBits: bv32)
    ensures var r := ScannedCommand(scan, bits, chordsRequested, superimposedBits);
      r != EOF && scan.dotPressed ==> r & superimposedBits == superimposedBits
    ensures var r := ScannedCommand(scan, bits, chordsRequested, superimposedBits);
      scan.emulatable && chordsRequested && scan.spacePressed ==> r & BRL_DOTC == BRL_DOTC
  {
    if scan.emulatable {
      var dots := if scan.dotPressed then bits | superimposedBits else bits;
      if scan.dotPressed {
        OrKeepsBits(bits, superimposedBits, superimposedBits);
        OrKeepsBits(dots, BRL_DOTC, superimposedBits);
      }
      OrKeepsBits(dots, BRL_DOTC, BRL_DOTC);
    }
  }

  /** The key map keyboard emulation reads, when there is one. */
  ghost predicate HasKeyMap(contexts: map<ContextId, KeyContext>, id: ContextId) {
    id in contexts && contexts[id].keyMap.Some?
  }

  /**
   * makeKeyboardCommand gives EOF without a context or key map, when a
   * pressed key is outside group 0 or has no function, and when (not
   * asked for a chord with the space bar) a dot and the space bar were
   * both pressed or neither was.
   */
  lemma KeyboardCommandFails(contexts: map<ContextId, KeyContext>, persistent: ContextId,
                             context: ContextId, pressed: seq<KeyValue>)
    requires ValidContexts(contexts)
    ensures var id := KeyboardContext(persistent, context);
      !HasKeyMap(contexts, id) ==> KeyboardCommand(contexts, persistent, context, pressed) == EOF
    ensures var id := KeyboardContext(persistent, context);
      HasKeyMap(contexts, id) && !AllEmulatable(contexts[id].keyMap.value, pressed) ==>
        KeyboardCommand(contexts, persistent, context, pressed) == EOF
    ensures var id := KeyboardContext(persistent, context);
      HasKeyMap(contexts, id) && AllEmulatable(contexts[id].keyMap.value, pressed) &&
      !(context == BRL_CTX_CHORDS && SomeSpace(contexts[id].keyMap.value, pressed)) &&
      SomeDot(contexts[id].keyMap.value, pressed) == SomeSpace(contexts[id].keyMap.value, pressed) ==>
        KeyboardCommand(contexts, persistent, context, pressed) == EOF
  {
    var id := KeyboardContext(persistent, context);
    if HasKeyMap(contexts, id) {
      var keyMap := contexts[id].keyMap.value;
      ScanKeysEmulatable(keyMap, pressed);
      if AllEmulatable(keyMap, pressed) {
        ScanKeysPressed(keyMap, pressed);
      }
    }
  }

  /**
   * Otherwise the scan has seen a dot, and the space bar, exactly when a
   * pressed key is one, and the command is composed from those two facts
   * and the scanned bits.
   */
  lemma KeyboardCommandComposed(contexts: map<ContextId, KeyContext>, persistent: ContextId,
                                context: ContextId, pressed: seq<KeyValue>)
    requires ValidContexts(contexts)
    requires HasKeyMap(contexts, KeyboardContext(persistent, context))
    requires AllEmulatable(contexts[KeyboardContext(persistent, context)].keyMap.value, pressed)
    ensures var ctx := contexts[KeyboardContext(persistent, context)];
      var keyMap := ctx.keyMap.value;
      KeyboardCommand(contexts, persistent, context, pressed) ==
        ScannedCommand(KeyScan(true, SomeDot(keyMap, pressed), SomeSpace(keyMap, pressed)),
                       ScanBits(keyMap, pressed), context == BRL_CTX_CHORDS, ctx.superimposedBits)
  {
    var ctx := contexts[KeyboardContext(persistent, context)];
    var keyMap := ctx.keyMap.value;
    ScanKeysEmulatable(keyMap, pressed);
    ScanKeysPressed(keyMap, pressed);
    assert ScanKeys(keyMap, pressed) == KeyScan(true, SomeDot(keyMap, pressed), SomeSpace(keyMap, pressed));
  }
}
