/**
 * The key-table event engine: binding and hotkey lookup, keyboard
 * emulation, the command dispatcher and the per-event state machine, over
 * the mutable session state of a `KeyTable`.
 *
 * Each operation that changes the table is a method of `KeyTable`; the pure
 * functions before the class say what the operations compute, and the
 * methods are proved to do exactly that.
 */
module KeyTranslate {
  import opened Options
  import opened KeyValues
  import opened BrlCommands
  import opened KeyContexts

  /** How an event was classified; only the table fields persist between events. */
  datatype KeyTableState = KtsUnbound | KtsHotkey | KtsModifiers | KtsCommand

  // ---------------------------------------------------------------------
  // Binding lookup (findKeyBinding)

  /** A key as the search pattern holds it: a key of a non-zero group matches any key of that group. */
  function Wildcard(keyValue: KeyValue): KeyValue {
    if keyValue.group != 0 then KeyValue(keyValue.group, KTB_KEY_MAX) else keyValue
  }

  /** The pattern searched for: every pressed key as a modifier, plus the immediate key if any. */
  function SearchTarget(pressed: seq<KeyValue>, immediate: Option<KeyValue>): (target: KeyCombination)
    ensures |target.modifierKeys| == |pressed|
    ensures forall i :: 0 <= i < |pressed| ==>
      target.modifierKeys[i].group == pressed[i].group &&
      target.modifierKeys[i].key == (if pressed[i].group != 0 then KTB_KEY_MAX else pressed[i].key)
    ensures target.immediateKey.Some? <==> immediate.Some?
    ensures immediate.Some? ==> target.immediateKey.value == Wildcard(immediate.value)
  {
    KeyCombination(seq(|pressed|, i requires 0 <= i < |pressed| => Wildcard(pressed[i])),
                   if immediate.Some? then Some(Wildcard(immediate.value)) else None)
  }

  /** The outcome of findKeyBinding: a binding, or a combination bound to EOF (incomplete), or nothing. */
  datatype BindingMatch = Bound(binding: KeyBinding) | Incomplete | NoMatch

  /**
   * findKeyBinding with `pressed` as the table's pressed keys. `Incomplete`
   * is the outcome on which the C function sets `*isIncomplete`.
   */
  function FindKeyBinding(contexts: map<ContextId, KeyContext>, context: ContextId,
                          pressed: seq<KeyValue>, immediate: Option<KeyValue>): (r: BindingMatch)
    requires ValidContexts(contexts)
    ensures context !in contexts || |pressed| > MAX_MODIFIERS_PER_COMBINATION ==> r == NoMatch
    ensures r.Bound? ==>
      && context in contexts
      && r.binding in contexts[context].sortedKeyBindings
      && r.binding.combination == SearchTarget(pressed, immediate)
      && r.binding.command != EOF
    ensures r.Incomplete? ==>
      && context in contexts
      && exists b :: b in contexts[context].sortedKeyBindings
                     && b.combination == SearchTarget(pressed, immediate) && b.command == EOF
    ensures r.NoMatch? && context in contexts && |pressed| <= MAX_MODIFIERS_PER_COMBINATION ==>
      forall b :: b in contexts[context].sortedKeyBindings ==> b.combination != SearchTarget(pressed, immediate)
  {
    if context in contexts && |pressed| <= MAX_MODIFIERS_PER_COMBINATION then
      match SearchKeyBinding(contexts[context].sortedKeyBindings, SearchTarget(pressed, immediate))
      case Some(binding) => if binding.command != EOF then Bound(binding) else Incomplete
      case None => NoMatch
    else NoMatch
  }

  /** findHotkeyEntry: the hotkey of the context for exactly this key value. */
  function FindHotkeyEntry(contexts: map<ContextId, KeyContext>, context: ContextId, keyValue: KeyValue): (r: Option<HotkeyEntry>)
    requires ValidContexts(contexts)
    ensures r.Some? ==>
      context in contexts && r.value in contexts[context].sortedHotkeyEntries && r.value.keyValue == keyValue
    ensures r.None? && context in contexts ==>
      forall h :: h in contexts[context].sortedHotkeyEntries ==> h.keyValue != keyValue
  {
    if context in contexts then SearchHotkeyEntry(contexts[context].sortedHotkeyEntries, keyValue) else None
  }

  // ---------------------------------------------------------------------
  // Keyboard emulation (makeKeyboardCommand)

  /** What the loop of makeKeyboardCommand has found out about a prefix of the pressed keys. */
  datatype KeyScan = KeyScan(emulatable: bool, dotPressed: bool, spacePressed: bool)

  /** A function without a command bit is the space bar. */
  predicate IsSpace(function': KeyboardFunction) {
    FunctionBit(function') == 0
  }

  /** A function whose bit lies in the argument mask is a dot. */
  predicate IsDot(function': KeyboardFunction) {
    var bit := FunctionBit(function');
    bit != 0 && bit & BRL_MSK_ARG != 0
  }

  /**
   * The checks of the loop of makeKeyboardCommand over `pressed`: a key
   * whose keyboard function has bit 0 is the space bar, one with a bit
   * inside the argument mask is a dot. A key outside group 0, or without a
   * function, ends the scan unsuccessfully.
   */
  function ScanKeys(keyMap: seq<KeyboardFunction>, pressed: seq<KeyValue>): KeyScan
    requires |keyMap| == KEY_MAP_SIZE
    decreases |pressed|
  {
    if pressed == [] then KeyScan(true, false, false)
    else
      var scan := ScanKeys(keyMap, pressed[..|pressed| - 1]);
      var keyValue := pressed[|pressed| - 1];
      var function' := keyMap[keyValue.key];
      if !scan.emulatable || keyValue.group != 0 || function' == NoFunction then KeyScan(false, false, false)
      else
        KeyScan(true, scan.dotPressed || IsDot(function'), scan.spacePressed || IsSpace(function'))
  }

  /** `keyboardCommand |= kbf->bit` */
  function AddFunctionBit(keyboardCommand: Command, function': KeyboardFunction): Command {
    keyboardCommand | FunctionBit(function')
  }

  /** The bits the loop of makeKeyboardCommand ORs into BRL_BLK_PASSDOTS, one per pressed key. */
  function ScanBits(keyMap: seq<KeyboardFunction>, pressed: seq<KeyValue>): Command
    requires |keyMap| == KEY_MAP_SIZE
    decreases |pressed|
  {
    if pressed == [] then BRL_BLK_PASSDOTS
    else AddFunctionBit(ScanBits(keyMap, pressed[..|pressed| - 1]), keyMap[pressed[|pressed| - 1].key])
  }

  /** One more key of the checks of makeKeyboardCommand. */
  lemma ScanKeysNext(keyMap: seq<KeyboardFunction>, pressed: seq<KeyValue>, n: nat)
    requires |keyMap| == KEY_MAP_SIZE
    requires n < |pressed|
    ensures var scan := ScanKeys(keyMap, pressed[..n]);
      var function' := keyMap[pressed[n].key];
      ScanKeys(keyMap, pressed[..n + 1]) ==
        if !scan.emulatable || pressed[n].group != 0 || function' == NoFunction then KeyScan(false, false, false)
        else KeyScan(true, scan.dotPressed || IsDot(function'), scan.spacePressed || IsSpace(function'))
  {
    assert pressed[..n + 1][..n] == pressed[..n];
  }

  /** One more key of the bits of makeKeyboardCommand. */
  lemma ScanBitsNext(keyMap: seq<KeyboardFunction>, pressed: seq<KeyValue>, n: nat)
    requires |keyMap| == KEY_MAP_SIZE
    requires n < |pressed|
    ensures ScanBits(keyMap, pressed[..n + 1]) == AddFunctionBit(ScanBits(keyMap, pressed[..n]), keyMap[pressed[n].key])
  {
    assert pressed[..n + 1][..n] == pressed[..n];
  }

  /** Once a prefix of the pressed keys fails the scan, the whole scan fails. */
  lemma {:induction false} ScanStaysFailed(keyMap: seq<KeyboardFunction>, pressed: seq<KeyValue>, n: nat)
    requires |keyMap| == KEY_MAP_SIZE
    requires n <= |pressed|
    requires !ScanKeys(keyMap, pressed[..n]).emulatable
    ensures !ScanKeys(keyMap, pressed).emulatable
    decreases |pressed| - n
  {
    if n == |pressed| {
      assert pressed[..n] == pressed;
    } else {
      assert pressed[..n + 1][..n] == pressed[..n];
      ScanStaysFailed(keyMap, pressed, n + 1);
    }
  }

  /** The context whose key map is used: the persistent one when chords are requested. */
  function KeyboardContext(persistent: ContextId, context: ContextId): ContextId {
    if context == BRL_CTX_CHORDS then persistent else context
  }

  /**
   * The command that keyboard emulation makes of a scan: the context's
   * superimposed bits are added when a dot was pressed; a chord request
   * with the space bar gets BRL_DOTC; otherwise exactly one of "a dot" and
   * "the space bar" must have been pressed.
   */
  function ScannedCommand(scan: KeyScan, bits: Command, chordsRequested: bool, superimposedBits: bv32): Command {
    if !scan.emulatable then EOF
    else
      var dots := if scan.dotPressed then bits | superimposedBits else bits;
      if chordsRequested && scan.spacePressed then dots | BRL_DOTC
      else if scan.dotPressed == scan.spacePressed then EOF
      else dots
  }

  /** The command that keyboard emulation makes of the pressed keys, or EOF. */
  function KeyboardCommand(contexts: map<ContextId, KeyContext>, persistent: ContextId,
                           context: ContextId, pressed: seq<KeyValue>): Command
    requires ValidContexts(contexts)
  {
    var id := KeyboardContext(persistent, context);
    if id !in contexts || contexts[id].keyMap.None? then EOF
    else
      var keyMap := contexts[id].keyMap.value;
      ScannedCommand(ScanKeys(keyMap, pressed), ScanBits(keyMap, pressed), context == BRL_CTX_CHORDS,
                     contexts[id].superimposedBits)
  }

  // ---------------------------------------------------------------------
  // The command dispatcher (processCommand)

  /** The persistent part of a key table. */
  datatype TableState = TableState(
    currentContext: ContextId,
    persistentContext: ContextId,
    pressedKeys: seq<KeyValue>,
    command: Command,
    immediate: bool)

  /**
   * What processCommand does to the table: a non-delayed context-switch
   * command naming an existing context makes it current, and persistent
   * too unless that context is temporary.
   */
  function SwitchContext(contexts: map<ContextId, KeyContext>, s: TableState, command: Command): TableState {
    if IsContextCommand(command) && !IsDelayed(command) && ContextTarget(command) in contexts then
      var target := ContextTarget(command);
      s.(currentContext := target,
         persistentContext := if contexts[target].isTemporary then s.persistentContext else target)
    else s
  }

  /** What processCommand hands to the command queue: context switches go as BRL_CMD_NOOP. */
  function Forwarded(command: Command): Command {
    if IsContextCommand(command) then BRL_CMD_NOOP else command
  }

  /** The commands an event hands to the queue, given what it passed to processCommand. */
  function Enqueued(issued: Option<Command>): seq<Command> {
    if issued.Some? then [Forwarded(issued.value)] else []
  }

  // ---------------------------------------------------------------------
  // The event engine (processKeyEvent)

  /** Where a press resolved to: the command (EOF for none), its binding, and the two flags. */
  datatype Resolution = Resolution(command: Command, binding: Option<KeyBinding>, immediate: bool, incomplete: bool)

  /**
   * The resolution order of a press event in `context`: `others` are the
   * pressed keys without the new key, `withKey` the pressed keys with it.
   */
  function ResolvePress(contexts: map<ContextId, KeyContext>, persistent: ContextId, context: ContextId,
                        keyValue: KeyValue, others: seq<KeyValue>, withKey: seq<KeyValue>): Resolution
    requires ValidContexts(contexts)
  {
    var exact := FindKeyBinding(contexts, context, others, Some(keyValue));
    if exact.Bound? then Resolution(exact.binding.command, Some(exact.binding), true, false)
    else
      var incomplete := exact.Incomplete?;
      var derived := FindKeyBinding(contexts, context, withKey, None);
      if derived.Bound? then Resolution(derived.binding.command, Some(derived.binding), false, incomplete)
      else
        var incomplete := incomplete || derived.Incomplete?;
        var keyboard := KeyboardCommand(contexts, persistent, context, withKey);
        if keyboard != EOF then Resolution(keyboard, None, false, incomplete)
        else if context == BRL_CTX_DEFAULT then Resolution(EOF, None, true, incomplete)
        else
          var exact := FindKeyBinding(contexts, BRL_CTX_DEFAULT, others, Some(keyValue));
          if exact.Bound? then Resolution(exact.binding.command, Some(exact.binding), true, incomplete)
          else
            var incomplete := incomplete || exact.Incomplete?;
            var derived := FindKeyBinding(contexts, BRL_CTX_DEFAULT, withKey, None);
            if derived.Bound? then Resolution(derived.binding.command, Some(derived.binding), false, incomplete)
            else Resolution(EOF, None, true, incomplete || derived.Incomplete?)
  }

  /** The position of the first pressed key outside group 0, or the count of pressed keys when there is none. */
  function FirstSetIndex(pressed: seq<KeyValue>): (i: nat)
    ensures i <= |pressed|
    ensures forall j :: 0 <= j < i ==> pressed[j].group == 0
    ensures i < |pressed| ==> pressed[i].group != 0
  {
    if pressed == [] || pressed[0].group != 0 then 0
    else 1 + FirstSetIndex(pressed[1..])
  }

  /** `command += key`: a key code added to a command, wrapping as the C `int` does. */
  function AddKeyCode(command: Command, key: bv8): Command {
    command + key as bv32
  }

  /**
   * A resolved command, with the code of the first pressed key outside
   * group 0 added when its binding has KBF_ADJUST (a keyboard command has no binding).
   */
  function AdjustedCommand(command: Command, binding: Option<KeyBinding>, pressed: seq<KeyValue>): Command {
    var i := FirstSetIndex(pressed);
    if binding.Some? && binding.value.flags & KBF_ADJUST != 0 && i < |pressed| then AddKeyCode(command, pressed[i].key)
    else command
  }

  /** The repeat flags of an immediate or a derived match. */
  function WithRepeatFlags(command: Command, immediate: bool): Command {
    if immediate then command | BRL_FLG_REPEAT_INITIAL | BRL_FLG_REPEAT_DELAY
    else command | BRL_FLG_REPEAT_DELAY
  }

  /** The command a press commits while `pressed` are held. */
  function IssuedCommand(resolution: Resolution, pressed: seq<KeyValue>): Command {
    WithRepeatFlags(AdjustedCommand(resolution.command, resolution.binding, pressed), resolution.immediate)
  }

  /** The outcome of one event: the new table, the classification, the context used, and the command issued. */
  datatype StepResult = StepResult(after: TableState, state: KeyTableState, context: ContextId, issued: Option<Command>)

  /** The event once the key has been resolved on press. */
  function PressOutcome(contexts: map<ContextId, KeyContext>, s: TableState, context: ContextId,
                        resolution: Resolution): StepResult
  {
    if resolution.command == EOF then
      var state := if resolution.incomplete then KtsModifiers else KtsUnbound;
      if s.command != EOF then
        StepResult(SwitchContext(contexts, s.(command := EOF), BRL_CMD_NOOP), state, context, Some(BRL_CMD_NOOP))
      else StepResult(s, state, context, None)
    else if resolution.command != s.command then
      var issued := IssuedCommand(resolution, s.pressedKeys);
      var s' := s.(command := resolution.command, immediate := resolution.immediate);
      StepResult(SwitchContext(contexts, s', issued), KtsCommand, context, Some(issued))
    else StepResult(s, KtsCommand, context, None)
  }

  /** The event on release: a held command is ended or triggered. */
  function ReleaseOutcome(contexts: map<ContextId, KeyContext>, s: TableState, context: ContextId): StepResult {
    if s.command != EOF then
      var issued := if s.immediate then BRL_CMD_NOOP else s.command;
      StepResult(SwitchContext(contexts, s.(command := EOF), issued), KtsUnbound, context, Some(issued))
    else StepResult(s, KtsUnbound, context, None)
  }

  /** A hotkey's press or release command is processed unless it is BRL_CMD_NOOP. */
  function HotkeyOutcome(contexts: map<ContextId, KeyContext>, s: TableState, context: ContextId,
                         hotkey: HotkeyEntry, press: bool): StepResult
  {
    var command := if press then hotkey.pressCommand else hotkey.releaseCommand;
    if command != BRL_CMD_NOOP then StepResult(SwitchContext(contexts, s, command), KtsHotkey, context, Some(command))
    else StepResult(s, KtsHotkey, context, None)
  }

  /**
   * An event of a key that is not a hotkey: the key is taken out of the
   * pressed keys, and a press puts it back in its place and resolves it.
   */
  function KeyOutcome(contexts: map<ContextId, KeyContext>, s: TableState, context: ContextId,
                      keyValue: KeyValue, press: bool): StepResult
    requires ValidContexts(contexts)
    requires StrictlySorted(s.pressedKeys)
  {
    var keys := s.pressedKeys;
    var position := InsertionPoint(keys, keyValue);
    InsertionPointLocates(keys, keyValue);
    var others := if keyValue in keys then RemoveKeyValue(keys, position) else keys;
    if press then
      var withKey := InsertKeyValue(others, keyValue, position);
      var resolution := ResolvePress(contexts, s.persistentContext, context, keyValue, others, withKey);
      PressOutcome(contexts, s.(pressedKeys := withKey), context, resolution)
    else ReleaseOutcome(contexts, s.(pressedKeys := others), context)
  }

  /** processKeyEvent on the table state `s`. */
  function Step(contexts: map<ContextId, KeyContext>, s: TableState,
                context: ContextId, group: Byte, key: bv8, press: bool): StepResult
    requires ValidContexts(contexts)
    requires StrictlySorted(s.pressedKeys)
  {
    var keyValue := KeyValue(group, key);
    var ctx := if context == BRL_CTX_DEFAULT then s.currentContext else context;
    var s1 := if press then s.(currentContext := s.persistentContext) else s;
    match FindHotkeyEntry(contexts, ctx, keyValue)
    case Some(hotkey) => HotkeyOutcome(contexts, s1, ctx, hotkey, press)
    case None => KeyOutcome(contexts, s1, ctx, keyValue, press)
  }

  /** What is always true of a table's state. */
  ghost predicate ValidState(contexts: map<ContextId, KeyContext>, s: TableState) {
    && StrictlySorted(s.pressedKeys)
    && s.currentContext in contexts
    && s.persistentContext in contexts
  }

  // ---------------------------------------------------------------------
  // The key table

  class KeyTable {
    /** The contexts loaded from the key table file; never changed here. */
    const contexts: map<ContextId, KeyContext>
    var currentContext: ContextId
    var persistentContext: ContextId
    /** The keys held down, sorted and free of duplicates. */
    var pressedKeys: seq<KeyValue>
    /** The raw command held since the last press that committed one, or EOF. */
    var command: Command
    /** Whether the held command came from an exact immediate-key match. */
    var immediate: bool
    var logKeyEvents: bool
    /** The commands handed to the command queue (enqueueCommand), oldest first. */
    ghost var dispatched: seq<Command>

    ghost predicate Valid()
      reads this
    {
      ValidContexts(contexts) && ValidState(contexts, State())
    }

    function State(): TableState
      reads this
    {
      TableState(currentContext, persistentContext, pressedKeys, command, immediate)
    }

    /** A fresh table over loaded contexts, in the default context with no key held. */
    constructor (contexts: map<ContextId, KeyContext>)
      requires ValidContexts(contexts)
      requires BRL_CTX_DEFAULT in contexts
      ensures Valid()
      ensures this.contexts == contexts
      ensures State() == TableState(BRL_CTX_DEFAULT, BRL_CTX_DEFAULT, [], EOF, false)
      ensures !logKeyEvents && dispatched == []
    {
      this.contexts := contexts;
      currentContext, persistentContext := BRL_CTX_DEFAULT, BRL_CTX_DEFAULT;
      pressedKeys, command, immediate := [], EOF, false;
      logKeyEvents := false;
      dispatched := [];
    }

    /** findPressedKey */
    method FindPressedKey(value: KeyValue) returns (found: bool, position: nat)
      requires StrictlySorted(pressedKeys)
      ensures position == InsertionPoint(pressedKeys, value)
      ensures found <==> value in pressedKeys
      ensures found ==> position < |pressedKeys| && pressedKeys[position] == value
    {
      found, position := FindKeyValue(pressedKeys, value);
    }

    /** insertPressedKey */
    method InsertPressedKey(value: KeyValue, position: nat)
      requires position <= |pressedKeys|
      modifies this`pressedKeys
      ensures pressedKeys == InsertKeyValue(old(pressedKeys), value, position)
    {
      pressedKeys := InsertKeyValue(pressedKeys, value, position);
    }

    /** removePressedKey */
    method RemovePressedKey(position: nat)
      requires position < |pressedKeys|
      modifies this`pressedKeys
      ensures pressedKeys == RemoveKeyValue(old(pressedKeys), position)
    {
      pressedKeys := RemoveKeyValue(pressedKeys, position);
    }

    /**
     * The loop of makeKeyboardCommand. It stops at the first key outside
     * group 0 or without a function (the C source returns EOF there).
     */
    method ScanPressedKeys(keyMap: seq<KeyboardFunction>)
      returns (emulatable: bool, keyboardCommand: Command, dotPressed: bool, spacePressed: bool)
      requires |keyMap| == KEY_MAP_SIZE
      ensures emulatable == ScanKeys(keyMap, pressedKeys).emulatable
      ensures emulatable ==> KeyScan(emulatable, dotPressed, spacePressed) == ScanKeys(keyMap, pressedKeys)
      ensures emulatable ==> keyboardCommand == ScanBits(keyMap, pressedKeys)
    {
      keyboardCommand := BRL_BLK_PASSDOTS;
      dotPressed := false;
      spacePressed := false;
      var pressedIndex := 0;
      while pressedIndex < |pressedKeys|
        invariant 0 <= pressedIndex <= |pressedKeys|
        invariant KeyScan(true, dotPressed, spacePressed) == ScanKeys(keyMap, pressedKeys[..pressedIndex])
        invariant keyboardCommand == ScanBits(keyMap, pressedKeys[..pressedIndex])
      {
        var keyValue := pressedKeys[pressedIndex];
        var function' := keyMap[keyValue.key];
        ScanKeysNext(keyMap, pressedKeys, pressedIndex);
        if keyValue.group != 0 || function' == NoFunction {
          ScanStaysFailed(keyMap, pressedKeys, pressedIndex + 1);
          return false, EOF, false, false;
        }
        keyboardCommand, dotPressed, spacePressed := AddKeyboardFunction(keyboardCommand, dotPressed, spacePressed, function');
        ScanBitsNext(keyMap, pressedKeys, pressedIndex);
        pressedIndex := pressedIndex + 1;
      }
      assert pressedKeys[..pressedIndex] == pressedKeys;
      emulatable := true;
    }

    /** The body of the loop of makeKeyboardCommand for a key of group 0 that has a function. */
    static method AddKeyboardFunction(keyboardCommand: Command, dotPressed: bool, spacePressed: bool,
                                      function': KeyboardFunction)
      returns (keyboardCommand': Command, dotPressed': bool, spacePressed': bool)
      ensures keyboardCommand' == AddFunctionBit(keyboardCommand, function')
      ensures dotPressed' == (dotPressed || IsDot(function'))
      ensures spacePressed' == (spacePressed || IsSpace(function'))
    {
      var bit := FunctionBit(function');
      keyboardCommand', dotPressed', spacePressed' := keyboardCommand | bit, dotPressed, spacePressed;
      if bit == 0 {
        spacePressed' := true;
      } else if bit & BRL_MSK_ARG != 0 {
        dotPressed' := true;
      }
    }

    /** makeKeyboardCommand */
    method MakeKeyboardCommand(context: ContextId) returns (keyboardCommand: Command)
      requires ValidContexts(contexts)
      ensures keyboardCommand == KeyboardCommand(contexts, persistentContext, context, pressedKeys)
    {
      var chordsRequested := context == BRL_CTX_CHORDS;
      var id := if chordsRequested then persistentContext else context;
      if id !in contexts {
        return EOF;
      }
      var ctx := contexts[id];
      if ctx.keyMap.None? {
        return EOF;
      }
      keyboardCommand := EmulateKeyboard(ctx.keyMap.value, ctx.superimposedBits, chordsRequested);
    }

    /** The part of makeKeyboardCommand that uses a context's key map. */
    method EmulateKeyboard(keyMap: seq<KeyboardFunction>, superimposedBits: bv32, chordsRequested: bool)
      returns (keyboardCommand: Command)
      requires |keyMap| == KEY_MAP_SIZE
      ensures keyboardCommand == ScannedCommand(ScanKeys(keyMap, pressedKeys), ScanBits(keyMap, pressedKeys),
                                                chordsRequested, superimposedBits)
    {
      var emulatable, bits, dotPressed, spacePressed := ScanPressedKeys(keyMap);
      keyboardCommand := FinishKeyboardCommand(emulatable, bits, dotPressed, spacePressed,
                                               superimposedBits, chordsRequested);
    }

    /** The tail of makeKeyboardCommand: superimpose, then check the dots against the space bar. */
    static method FinishKeyboardCommand(emulatable: bool, bits: Command, dotPressed: bool, spacePressed: bool,
                                        superimposedBits: bv32, chordsRequested: bool)
      returns (keyboardCommand: Command)
      ensures keyboardCommand == ScannedCommand(KeyScan(emulatable, dotPressed, spacePressed), bits,
                                                chordsRequested, superimposedBits)
    {
      if !emulatable {
        return EOF;
      }
      keyboardCommand := bits;
      if dotPressed {
        keyboardCommand := keyboardCommand | superimposedBits;
      }
      if chordsRequested && spacePressed {
        keyboardCommand := keyboardCommand | BRL_DOTC;
      } else if dotPressed == spacePressed {
        return EOF;
      }
    }

    /** processCommand: interpret a context switch, then hand the command to the queue. */
    method ProcessCommand(command: Command)
      requires Valid()
      modifies this`currentContext, this`persistentContext, this`dispatched
      ensures Valid()
      ensures State() == SwitchContext(contexts, old(State()), command)
      ensures dispatched == old(dispatched) + [Forwarded(command)]
    {
      var forwarded := command;
      if command & BRL_MSK_BLK == BRL_BLK_CONTEXT {
        assert IsContextCommand(command);
        if !IsDelayed(command) {
          var context: ContextId := BRL_CTX_DEFAULT + ((command & BRL_MSK_ARG) as int) % 0x100;
          assert context == ContextTarget(command);
          if context in contexts {
            currentContext := context;
            if !contexts[context].isTemporary {
              persistentContext := context;
            }
          }
        }
        forwarded := BRL_CMD_NOOP;
      } else {
        assert !IsContextCommand(command);
      }
      dispatched := dispatched + [forwarded];
    }

    /** The adjust scan: add the code of the first pressed key outside group 0. */
    method AdjustCommand(command: Command, binding: Option<KeyBinding>) returns (adjusted: Command)
      ensures adjusted == AdjustedCommand(command, binding, pressedKeys)
    {
      adjusted := command;
      if binding.Some? && binding.value.flags & KBF_ADJUST != 0 {
        var index := 0;
        while index < |pressedKeys| && pressedKeys[index].group == 0
          invariant 0 <= index <= |pressedKeys|
          invariant forall i :: 0 <= i < index ==> pressedKeys[i].group == 0
        {
          index := index + 1;
        }
        assert index == FirstSetIndex(pressedKeys);
        if index < |pressedKeys| {
          adjusted := AddKeyCode(adjusted, pressedKeys[index].key);
        }
      }
    }

    /**
     * The resolution part of a press (the lookups and keyboard emulation):
     * `pressedKeys` holds the other pressed keys on entry and the new key too on exit.
     */
    method ResolvePressedKey(context: ContextId, keyValue: KeyValue, keyPosition: nat) returns (resolution: Resolution)
      requires ValidContexts(contexts)
      requires keyPosition <= |pressedKeys|
      modifies this`pressedKeys
      ensures pressedKeys == InsertKeyValue(old(pressedKeys), keyValue, keyPosition)
      ensures resolution == ResolvePress(contexts, persistentContext, context, keyValue, old(pressedKeys), pressedKeys)
    {
      ghost var others := pressedKeys;
      ghost var withKey := InsertKeyValue(others, keyValue, keyPosition);
      var isIncomplete := false;
      var isImmediate := true;
      var binding: Option<KeyBinding> := None;
      var cmd := EOF;
      var found := FindKeyBinding(contexts, context, pressedKeys, Some(keyValue));
      isIncomplete := isIncomplete || found.Incomplete?;
      InsertPressedKey(keyValue, keyPosition);
      if found.Bound? {
        binding, cmd := Some(found.binding), found.binding.command;
      } else {
        found := FindKeyBinding(contexts, context, pressedKeys, None);
        isIncomplete := isIncomplete || found.Incomplete?;
        if found.Bound? {
          binding, cmd, isImmediate := Some(found.binding), found.binding.command, false;
        } else {
          binding := None;
          cmd := MakeKeyboardCommand(context);
          if cmd != EOF {
            isImmediate := false;
          } else if context == BRL_CTX_DEFAULT {
            cmd := EOF;
          } else {
            assert pressedKeys[..keyPosition] == others[..keyPosition];
            assert pressedKeys[keyPosition + 1..] == others[keyPosition..];
            RemovePressedKey(keyPosition);
            assert pressedKeys == others;
            found := FindKeyBinding(contexts, BRL_CTX_DEFAULT, pressedKeys, Some(keyValue));
            isIncomplete := isIncomplete || found.Incomplete?;
            InsertPressedKey(keyValue, keyPosition);
            if found.Bound? {
              binding, cmd := Some(found.binding), found.binding.command;
            } else {
              found := FindKeyBinding(contexts, BRL_CTX_DEFAULT, pressedKeys, None);
              isIncomplete := isIncomplete || found.Incomplete?;
              if found.Bound? {
                binding, cmd, isImmediate := Some(found.binding), found.binding.command, false;
              } else {
                cmd := EOF;
              }
            }
          }
        }
      }
      resolution := Resolution(cmd, binding, isImmediate, isIncomplete);
    }

    /** processKeyEvent */
    method ProcessKeyEvent(context: ContextId, group: Byte, key: bv8, press: bool) returns (state: KeyTableState)
      requires Valid()
      modifies this`currentContext, this`persistentContext, this`pressedKeys, this`command, this`immediate, this`dispatched
      ensures Valid()
      ensures var r := Step(contexts, old(State()), context, group, key, press);
        && State() == r.after
        && state == r.state
        && dispatched == old(dispatched) + Enqueued(r.issued)
    {
      var keyValue := KeyValue(group, key);
      var ctx := if context == BRL_CTX_DEFAULT then currentContext else context;
      if press {
        currentContext := persistentContext;
      }
      var hotkey := FindHotkeyEntry(contexts, ctx, keyValue);
      if hotkey.Some? {
        state := ProcessHotkey(ctx, hotkey.value, press);
      } else {
        state := ProcessKey(ctx, keyValue, press);
      }
    }

    /** The hotkey part of processKeyEvent. */
    method ProcessHotkey(context: ContextId, hotkey: HotkeyEntry, press: bool) returns (state: KeyTableState)
      requires Valid()
      modifies this`currentContext, this`persistentContext, this`dispatched
      ensures Valid()
      ensures var r := HotkeyOutcome(contexts, old(State()), context, hotkey, press);
        && State() == r.after
        && state == r.state
        && dispatched == old(dispatched) + Enqueued(r.issued)
    {
      var cmd := if press then hotkey.pressCommand else hotkey.releaseCommand;
      if cmd != BRL_CMD_NOOP {
        ProcessCommand(cmd);
      }
      state := KtsHotkey;
    }

    /** The part of processKeyEvent for a key that is not a hotkey. */
    method ProcessKey(context: ContextId, keyValue: KeyValue, press: bool) returns (state: KeyTableState)
      requires Valid()
      modifies this`currentContext, this`persistentContext, this`pressedKeys, this`command, this`immediate, this`dispatched
      ensures Valid()
      ensures var r := KeyOutcome(contexts, old(State()), context, keyValue, press);
        && State() == r.after
        && state == r.state
        && dispatched == old(dispatched) + Enqueued(r.issued)
    {
      var found, keyPosition := FindPressedKey(keyValue);
      InsertionPointLocates(pressedKeys, keyValue);
      if found {
        RemoveKeepsSorted(pressedKeys, keyPosition);
        RemoveKeepsInsertionPoint(pressedKeys, keyValue);
        RemovePressedKey(keyPosition);
      }
      ghost var others := pressedKeys;
      assert keyValue !in others by {
        if found {
          assert multiset(others)[keyValue] == 0;
        }
      }
      assert keyPosition == InsertionPoint(others, keyValue);
      if press {
        InsertKeepsSorted(pressedKeys, keyValue);
        var resolution := ResolvePressedKey(context, keyValue, keyPosition);
        state := CommitPress(context, resolution);
      } else {
        state := CommitRelease(context);
      }
    }

    /** The part of processKeyEvent that acts on a resolved press. */
    method CommitPress(context: ContextId, resolution: Resolution) returns (state: KeyTableState)
      requires Valid()
      modifies this`currentContext, this`persistentContext, this`command, this`immediate, this`dispatched
      ensures Valid()
      ensures var r := PressOutcome(contexts, old(State()), context, resolution);
        && State() == r.after
        && state == r.state
        && dispatched == old(dispatched) + Enqueued(r.issued)
    {
      state := KtsUnbound;
      var cmd := resolution.command;
      if cmd == EOF {
        if resolution.incomplete {
          state := KtsModifiers;
        }
        if command != EOF {
          command := EOF;
          ProcessCommand(BRL_CMD_NOOP);
        }
      } else {
        if cmd != command {
          IssueCommand(resolution);
        }
        state := KtsCommand;
      }
    }

    /** A press resolved to a command other than the held one: hold it raw, issue it adjusted and flagged. */
    method IssueCommand(resolution: Resolution)
      requires Valid()
      modifies this`currentContext, this`persistentContext, this`command, this`immediate, this`dispatched
      ensures Valid()
      ensures var issued := IssuedCommand(resolution, pressedKeys);
        && State() == SwitchContext(contexts, old(State()).(command := resolution.command, immediate := resolution.immediate), issued)
        && dispatched == old(dispatched) + [Forwarded(issued)]
    {
      command := resolution.command;
      var cmd := AdjustCommand(resolution.command, resolution.binding);
      immediate := resolution.immediate;
      cmd := WithRepeatFlags(cmd, immediate);
      assert cmd == IssuedCommand(resolution, pressedKeys);
      assert State() == old(State()).(command := resolution.command, immediate := resolution.immediate);
      ProcessCommand(cmd);
    }

    /** The part of processKeyEvent that acts on a release. */
    method CommitRelease(context: ContextId) returns (state: KeyTableState)
      requires Valid()
      modifies this`currentContext, this`persistentContext, this`command, this`dispatched
      ensures Valid()
      ensures var r := ReleaseOutcome(contexts, old(State()), context);
        && State() == r.after
        && state == r.state
        && dispatched == old(dispatched) + Enqueued(r.issued)
    {
      state := KtsUnbound;
      if command != EOF {
        var cmd := if immediate then BRL_CMD_NOOP else command;
        command := EOF;
        ProcessCommand(cmd);
      }
    }

    /** logKeyEvents: switch event tracing on for this table. */
    method LogKeyEvents()
      modifies this`logKeyEvents
      ensures logKeyEvents
    {
      logKeyEvents := true;
    }
  }
}
