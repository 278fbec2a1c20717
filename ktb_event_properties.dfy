/**
 * Properties of processCommand and processKeyEvent, stated over the
 * functions `SwitchContext`, `ResolvePress` and `Step` that specify
 * `KeyTable.ProcessCommand` and `KeyTable.ProcessKeyEvent`.
 */
module KeyEventProperties {
  import opened Options
  import opened KeyValues
  import opened BrlCommands
  import opened KeyContexts
  import opened KeyTranslate

  // ---------------------------------------------------------------------
  // processCommand

  /** What reaches the command queue is never a context switch, so the queue cannot switch again. */
  lemma ForwardedNeverSwitches(contexts: map<ContextId, KeyContext>, s: TableState, command: Command)
    ensures !IsContextCommand(Forwarded(command))
    ensures SwitchContext(contexts, s, Forwarded(command)) == s
    ensures !IsContextCommand(command) ==> Forwarded(command) == command
  {
  }

  /** processCommand touches only the two context fields, and only to name an existing context. */
  lemma SwitchContextKeepsValid(contexts: map<ContextId, KeyContext>, s: TableState, command: Command)
    requires ValidState(contexts, s)
    ensures var s' := SwitchContext(contexts, s, command);
      && ValidState(contexts, s')
      && s'.pressedKeys == s.pressedKeys && s'.command == s.command && s'.immediate == s.immediate
  {
  }

  /**
   * A context changes only through a non-delayed context-switch command
   * naming it, and the persistent context only to a context that is not
   * temporary.
   */
  lemma SwitchContextChanges(contexts: map<ContextId, KeyContext>, s: TableState, command: Command)
    ensures var s' := SwitchContext(contexts, s, command);
      s'.currentContext != s.currentContext ==>
        && IsContextCommand(command) && !IsDelayed(command)
        && s'.currentContext == ContextTarget(command) && s'.currentContext in contexts
    ensures var s' := SwitchContext(contexts, s, command);
      s'.persistentContext != s.persistentContext ==>
        && IsContextCommand(command) && !IsDelayed(command) && ContextTarget(command) in contexts
        && s'.persistentContext == ContextTarget(command) && s'.persistentContext == s'.currentContext
        && !contexts[s'.persistentContext].isTemporary
  {
  }

  /** Any other command, and a delayed context switch, leaves the table as it was. */
  lemma SwitchContextIgnoresOthers(contexts: map<ContextId, KeyContext>, s: TableState, command: Command)
    requires !IsContextCommand(command) || IsDelayed(command)
    ensures SwitchContext(contexts, s, command) == s
  {
  }

  /** ...and such a command always makes its context current, and persistent unless it is temporary. */
  lemma SwitchContextTakesEffect(contexts: map<ContextId, KeyContext>, s: TableState, command: Command)
    requires IsContextCommand(command) && !IsDelayed(command) && ContextTarget(command) in contexts
    ensures var s' := SwitchContext(contexts, s, command);
      && s'.currentContext == ContextTarget(command)
      && (contexts[ContextTarget(command)].isTemporary ==> s'.persistentContext == s.persistentContext)
      && (!contexts[ContextTarget(command)].isTemporary ==> s'.persistentContext == ContextTarget(command))
  {
  }

  /** Switching twice with the same command is switching once. */
  lemma SwitchContextIdempotent(contexts: map<ContextId, KeyContext>, s: TableState, command: Command)
    ensures SwitchContext(contexts, SwitchContext(contexts, s, command), command) == SwitchContext(contexts, s, command)
  {
  }

  // ---------------------------------------------------------------------
  // processKeyEvent

  /** The context an event is evaluated in: the caller's, or the current one (before a press resets it) for the default marker. */
  function EventContext(s: TableState, context: ContextId): ContextId {
    if context == BRL_CTX_DEFAULT then s.currentContext else context
  }

  /** The pressed keys without `keyValue`. */
  function KeysWithout(keys: seq<KeyValue>, keyValue: KeyValue): seq<KeyValue>
    requires StrictlySorted(keys)
  {
    InsertionPointLocates(keys, keyValue);
    if keyValue in keys then RemoveKeyValue(keys, InsertionPoint(keys, keyValue)) else keys
  }

  /** The pressed keys with `keyValue` put in its place. */
  function KeysWith(keys: seq<KeyValue>, keyValue: KeyValue): seq<KeyValue>
    requires StrictlySorted(keys)
  {
    var others := KeysWithout(keys, keyValue);
    InsertKeyValue(others, keyValue, InsertionPoint(keys, keyValue))
  }

  /** How a press of a key that is not a hotkey resolves. */
  function PressResolution(contexts: map<ContextId, KeyContext>, s: TableState,
                           context: ContextId, keyValue: KeyValue): Resolution
    requires ValidContexts(contexts)
    requires StrictlySorted(s.pressedKeys)
  {
    ResolvePress(contexts, s.persistentContext, EventContext(s, context), keyValue,
                 KeysWithout(s.pressedKeys, keyValue), KeysWith(s.pressedKeys, keyValue))
  }

  /**
   * What every outcome of an event keeps: the pressed keys it was given,
   * the contexts unless it issues a context switch, and a valid state.
   */
  ghost predicate KeepsFrame(contexts: map<ContextId, KeyContext>, s: TableState, r: StepResult) {
    && r.after.pressedKeys == s.pressedKeys
    && ((r.issued.None? || !IsContextCommand(r.issued.value)) ==>
          r.after.currentContext == s.currentContext && r.after.persistentContext == s.persistentContext)
    && (ValidState(contexts, s) ==> ValidState(contexts, r.after))
  }

  lemma PressOutcomeKeepsFrame(contexts: map<ContextId, KeyContext>, s: TableState, context: ContextId,
                               resolution: Resolution)
    ensures KeepsFrame(contexts, s, PressOutcome(contexts, s, context, resolution))
  {
  }

  lemma ReleaseOutcomeKeepsFrame(contexts: map<ContextId, KeyContext>, s: TableState, context: ContextId)
    ensures KeepsFrame(contexts, s, ReleaseOutcome(contexts, s, context))
  {
  }

  lemma HotkeyOutcomeKeepsFrame(contexts: map<ContextId, KeyContext>, s: TableState, context: ContextId,
                                hotkey: HotkeyEntry, press: bool)
    ensures KeepsFrame(contexts, s, HotkeyOutcome(contexts, s, context, hotkey, press))
  {
  }

  /** The pressed keys after an event of a key that is not a hotkey. */
  lemma KeyOutcomeKeepsFrame(contexts: map<ContextId, KeyContext>, s: TableState, context: ContextId,
                             keyValue: KeyValue, press: bool)
    requires ValidContexts(contexts) && StrictlySorted(s.pressedKeys)
    ensures var keys := if press then KeysWith(s.pressedKeys, keyValue) else KeysWithout(s.pressedKeys, keyValue);
      KeepsFrame(contexts, s.(pressedKeys := keys), KeyOutcome(contexts, s, context, keyValue, press))
  {
    var others := KeysWithout(s.pressedKeys, keyValue);
    if press {
      var withKey := KeysWith(s.pressedKeys, keyValue);
      PressOutcomeKeepsFrame(contexts, s.(pressedKeys := withKey), context,
                             ResolvePress(contexts, s.persistentContext, context, keyValue, others, withKey));
    } else {
      ReleaseOutcomeKeepsFrame(contexts, s.(pressedKeys := others), context);
    }
  }

  /** The pressed keys after an event, and where they stay sorted. */
  lemma KeysAfterEvent(keys: seq<KeyValue>, keyValue: KeyValue, press: bool)
    requires StrictlySorted(keys)
    ensures var keys' := if press then KeysWith(keys, keyValue) else KeysWithout(keys, keyValue);
      && StrictlySorted(keys')
      && multiset(keys') == multiset(keys)[keyValue := if press then 1 else 0]
  {
    InsertionPointLocates(keys, keyValue);
    var position := InsertionPoint(keys, keyValue);
    var others := KeysWithout(keys, keyValue);
    if keyValue in keys {
      RemoveKeepsSorted(keys, position);
      RemoveKeepsInsertionPoint(keys, keyValue);
    } else {
      assert multiset(keys)[keyValue] == 0;
    }
    assert multiset(others) == multiset(keys)[keyValue := 0];
    if press {
      assert keyValue !in others by {
        assert multiset(others)[keyValue] == 0;
      }
      InsertKeepsSorted(others, keyValue);
      InsertAddsOnce(others, keyValue, position);
    }
  }

  /** The state an event starts from once a press has reset the current context. */
  function PressReset(s: TableState, press: bool): TableState {
    if press then s.(currentContext := s.persistentContext) else s
  }

  /** Every event keeps its frame: the pressed keys change only for a key that is not a hotkey. */
  lemma StepKeepsFrame(contexts: map<ContextId, KeyContext>, s: TableState,
                       context: ContextId, group: Byte, key: bv8, press: bool)
    requires ValidContexts(contexts) && StrictlySorted(s.pressedKeys)
    ensures var keyValue := KeyValue(group, key);
      var keys := if FindHotkeyEntry(contexts, EventContext(s, context), keyValue).Some? then s.pressedKeys
                  else if press then KeysWith(s.pressedKeys, keyValue) else KeysWithout(s.pressedKeys, keyValue);
      KeepsFrame(contexts, PressReset(s, press).(pressedKeys := keys), Step(contexts, s, context, group, key, press))
  {
    var keyValue := KeyValue(group, key);
    var ctx := EventContext(s, context);
    var s1 := PressReset(s, press);
    match FindHotkeyEntry(contexts, ctx, keyValue)
    case Some(hotkey) =>
      HotkeyOutcomeKeepsFrame(contexts, s1, ctx, hotkey, press);
    case None =>
      KeyOutcomeKeepsFrame(contexts, s1, ctx, keyValue, press);
  }

  /** An event keeps the table's state valid. */
  lemma StepKeepsValid(contexts: map<ContextId, KeyContext>, s: TableState,
                       context: ContextId, group: Byte, key: bv8, press: bool)
    requires ValidContexts(contexts) && ValidState(contexts, s)
    ensures ValidState(contexts, Step(contexts, s, context, group, key, press).after)
  {
    StepKeepsFrame(contexts, s, context, group, key, press);
    var keyValue := KeyValue(group, key);
    if FindHotkeyEntry(contexts, EventContext(s, context), keyValue).None? {
      KeysAfterEvent(s.pressedKeys, keyValue, press);
    }
  }

  /**
   * The event is evaluated in the caller's context, or for the default
   * marker in the context current before the press: the press that follows
   * a switch to a temporary context is still evaluated in it. The hotkey
   * lookup, the resolution of a press and the outcome all run there.
   */
  lemma StepUsesEventContext(contexts: map<ContextId, KeyContext>, s: TableState,
                             context: ContextId, group: Byte, key: bv8, press: bool)
    requires ValidContexts(contexts) && StrictlySorted(s.pressedKeys)
    ensures Step(contexts, s, context, group, key, press).context == EventContext(s, context)
    ensures var keyValue := KeyValue(group, key);
      var hotkey := FindHotkeyEntry(contexts, EventContext(s, context), keyValue);
      hotkey.Some? ==>
        Step(contexts, s, context, group, key, press) ==
        HotkeyOutcome(contexts, PressReset(s, press), EventContext(s, context), hotkey.value, press)
    ensures var keyValue := KeyValue(group, key);
      FindHotkeyEntry(contexts, EventContext(s, context), keyValue).None? && press ==>
        Step(contexts, s, context, group, key, press) ==
        PressOutcome(contexts, PressReset(s, true).(pressedKeys := KeysWith(s.pressedKeys, keyValue)),
                     EventContext(s, context), PressResolution(contexts, s, context, keyValue))
    ensures var keyValue := KeyValue(group, key);
      FindHotkeyEntry(contexts, EventContext(s, context), keyValue).None? && !press ==>
        Step(contexts, s, context, group, key, press) ==
        ReleaseOutcome(contexts, s.(pressedKeys := KeysWithout(s.pressedKeys, keyValue)), EventContext(s, context))
  {
  }

  /**
   * Unless the event issues a context switch, a press returns to the
   * persistent context (a temporary context lasts for one press), a release
   * keeps the current one, and the persistent context stays.
   */
  lemma StepContexts(contexts: map<ContextId, KeyContext>, s: TableState,
                     context: ContextId, group: Byte, key: bv8, press: bool)
    requires ValidContexts(contexts) && StrictlySorted(s.pressedKeys)
    ensures var r := Step(contexts, s, context, group, key, press);
      (r.issued.None? || !IsContextCommand(r.issued.value)) ==>
        && r.after.currentContext == (if press then s.persistentContext else s.currentContext)
        && r.after.persistentContext == s.persistentContext
  {
    StepKeepsFrame(contexts, s, context, group, key, press);
  }

  /**
   * A hotkey's press or release command is issued unless it is
   * BRL_CMD_NOOP; the event is KTS_HOTKEY, and the pressed keys and the held
   * command are left alone.
   */
  lemma HotkeyEvent(contexts: map<ContextId, KeyContext>, s: TableState,
                    context: ContextId, group: Byte, key: bv8, press: bool)
    requires ValidContexts(contexts) && StrictlySorted(s.pressedKeys)
    requires FindHotkeyEntry(contexts, EventContext(s, context), KeyValue(group, key)).Some?
    ensures var hotkey := FindHotkeyEntry(contexts, EventContext(s, context), KeyValue(group, key)).value;
      var command := if press then hotkey.pressCommand else hotkey.releaseCommand;
      var r := Step(contexts, s, context, group, key, press);
      && r.state == KtsHotkey
      && r.issued == (if command != BRL_CMD_NOOP then Some(command) else None)
      && r.after.pressedKeys == s.pressedKeys
      && r.after.command == s.command
      && r.after.immediate == s.immediate
  {
  }

  /**
   * Any other event keeps the pressed keys sorted and free of
   * duplicates: a press leaves the key there exactly once, a release
   * leaves it out, and no other key is added or removed.
   */
  lemma StepPressedKeys(contexts: map<ContextId, KeyContext>, s: TableState,
                        context: ContextId, group: Byte, key: bv8, press: bool)
    requires ValidContexts(contexts) && StrictlySorted(s.pressedKeys)
    requires FindHotkeyEntry(contexts, EventContext(s, context), KeyValue(group, key)).None?
    ensures var keys := Step(contexts, s, context, group, key, press).after.pressedKeys;
      && StrictlySorted(keys)
      && multiset(keys) == multiset(s.pressedKeys)[KeyValue(group, key) := if press then 1 else 0]
  {
    StepKeepsFrame(contexts, s, context, group, key, press);
    KeysAfterEvent(s.pressedKeys, KeyValue(group, key), press);
  }

  // ---------------------------------------------------------------------
  // Press outcomes

  /**
   * A press that resolves to no command is KTS_MODIFIERS when a probe
   * found an incomplete combination and KTS_UNBOUND otherwise; a held
   * command is dropped and BRL_CMD_NOOP issued in its place.
   */
  lemma PressWithoutCommand(contexts: map<ContextId, KeyContext>, s: TableState,
                            context: ContextId, group: Byte, key: bv8)
    requires ValidContexts(contexts) && StrictlySorted(s.pressedKeys)
    requires FindHotkeyEntry(contexts, EventContext(s, context), KeyValue(group, key)).None?
    requires PressResolution(contexts, s, context, KeyValue(group, key)).command == EOF
    ensures var resolution := PressResolution(contexts, s, context, KeyValue(group, key));
      var r := Step(contexts, s, context, group, key, true);
      && r.state == (if resolution.incomplete then KtsModifiers else KtsUnbound)
      && r.after.command == EOF
      && r.after.immediate == s.immediate
      && r.issued == (if s.command != EOF then Some(BRL_CMD_NOOP) else None)
  {
  }

  /**
   * A press that resolves to a command other than the held one holds the
   * raw command, remembers whether it came from an immediate match, and
   * issues it adjusted and with its repeat flags.
   */
  lemma PressWithNewCommand(contexts: map<ContextId, KeyContext>, s: TableState,
                            context: ContextId, group: Byte, key: bv8)
    requires ValidContexts(contexts) && StrictlySorted(s.pressedKeys)
    requires FindHotkeyEntry(contexts, EventContext(s, context), KeyValue(group, key)).None?
    requires var resolution := PressResolution(contexts, s, context, KeyValue(group, key));
      resolution.command != EOF && resolution.command != s.command
    ensures var resolution := PressResolution(contexts, s, context, KeyValue(group, key));
      var r := Step(contexts, s, context, group, key, true);
      && r.state == KtsCommand
      && r.after.command == resolution.command
      && r.after.immediate == resolution.immediate
      && r.issued == Some(IssuedCommand(resolution, KeysWith(s.pressedKeys, KeyValue(group, key))))
  {
    StepUsesEventContext(contexts, s, context, group, key, true);
  }

  /** A press that resolves to the held command again issues nothing and changes only the pressed keys and the context reset. */
  lemma PressWithHeldCommand(contexts: map<ContextId, KeyContext>, s: TableState,
                             context: ContextId, group: Byte, key: bv8)
    requires ValidContexts(contexts) && StrictlySorted(s.pressedKeys)
    requires FindHotkeyEntry(contexts, EventContext(s, context), KeyValue(group, key)).None?
    requires var resolution := PressResolution(contexts, s, context, KeyValue(group, key));
      resolution.command != EOF && resolution.command == s.command
    ensures var r := Step(contexts, s, context, group, key, true);
      && r.state == KtsCommand
      && r.issued.None?
      && r.after == PressReset(s, true).(pressedKeys := KeysWith(s.pressedKeys, KeyValue(group, key)))
  {
  }

  /** The repeat delay flag is always set on an issued command. */
  lemma RepeatDelayAlwaysSet(command: Command, immediate: bool)
    ensures WithRepeatFlags(command, immediate) & BRL_FLG_REPEAT_DELAY == BRL_FLG_REPEAT_DELAY
  {
  }

  /** The initial repeat flag is set for an immediate match and otherwise left as the binding has it. */
  lemma RepeatInitialOnlyWhenImmediate(command: Command, immediate: bool)
    ensures WithRepeatFlags(command, immediate) & BRL_FLG_REPEAT_INITIAL ==
            if immediate then BRL_FLG_REPEAT_INITIAL else command & BRL_FLG_REPEAT_INITIAL
  {
  }

  /** No other bit of the command changes. */
  lemma RepeatFlagsKeepOtherBits(command: Command, immediate: bool)
    ensures WithRepeatFlags(command, immediate) & !(BRL_FLG_REPEAT_INITIAL | BRL_FLG_REPEAT_DELAY) ==
            command & !(BRL_FLG_REPEAT_INITIAL | BRL_FLG_REPEAT_DELAY)
  {
  }

  /**
   * A context switch bound without an immediate key is issued delayed on
   * the press, so it does not switch then; bound with one, it switches at once.
   */
  lemma DerivedSwitchWaits(contexts: map<ContextId, KeyContext>, s: TableState, command: Command)
    requires command & BRL_FLG_REPEAT_INITIAL == 0
    ensures SwitchContext(contexts, s, WithRepeatFlags(command, false)) == s
  {
  }

  lemma ImmediateSwitchActs(contexts: map<ContextId, KeyContext>, s: TableState, command: Command)
    requires IsContextCommand(command) && ContextTarget(command) in contexts
    ensures SwitchContext(contexts, s, WithRepeatFlags(command, true)).currentContext == ContextTarget(command)
  {
  }

  // ---------------------------------------------------------------------
  // Release outcomes

  /** A release with a held command ends it: BRL_CMD_NOOP after an immediate match, the raw command otherwise. */
  lemma ReleaseWithHeldCommand(contexts: map<ContextId, KeyContext>, s: TableState,
                               context: ContextId, group: Byte, key: bv8)
    requires ValidContexts(contexts) && StrictlySorted(s.pressedKeys)
    requires FindHotkeyEntry(contexts, EventContext(s, context), KeyValue(group, key)).None?
    requires s.command != EOF
    ensures var r := Step(contexts, s, context, group, key, false);
      && r.state == KtsUnbound
      && r.after.command == EOF
      && r.after.immediate == s.immediate
      && r.issued == Some(if s.immediate then BRL_CMD_NOOP else s.command)
  {
  }

  /** A release with nothing held only takes the key out. */
  lemma ReleaseWithoutHeldCommand(contexts: map<ContextId, KeyContext>, s: TableState,
                                  context: ContextId, group: Byte, key: bv8)
    requires ValidContexts(contexts) && StrictlySorted(s.pressedKeys)
    requires FindHotkeyEntry(contexts, EventContext(s, context), KeyValue(group, key)).None?
    requires s.command == EOF
    ensures var r := Step(contexts, s, context, group, key, false);
      && r.state == KtsUnbound
      && r.issued.None?
      && r.after == s.(pressedKeys := KeysWithout(s.pressedKeys, KeyValue(group, key)))
  {
  }

  // ---------------------------------------------------------------------
  // Resolution of a press

  /** `binding` is one of the bindings of context `id`. */
  ghost predicate BoundIn(contexts: map<ContextId, KeyContext>, id: ContextId, binding: KeyBinding) {
    id in contexts && binding in contexts[id].sortedKeyBindings
  }

  /** Context `id` has an incomplete combination (a binding to EOF) for `target`. */
  ghost predicate IncompleteIn(contexts: map<ContextId, KeyContext>, id: ContextId, target: KeyCombination) {
    id in contexts && exists b :: b in contexts[id].sortedKeyBindings && b.combination == target && b.command == EOF
  }

  /** Context `id` has no binding for `target`. */
  ghost predicate UnboundIn(contexts: map<ContextId, KeyContext>, id: ContextId, target: KeyCombination) {
    id in contexts ==> forall b :: b in contexts[id].sortedKeyBindings ==> b.combination != target
  }

  /**
   * Where a resolved command comes from: an immediate match looks the new
   * key up as the immediate key of the other held keys, a derived match
   * looks all held keys up as modifiers, both in the event's context or the
   * default one; a keyboard command has no binding and is never immediate;
   * the default context is consulted only when keyboard emulation failed.
   */
  lemma ResolutionOrigin(contexts: map<ContextId, KeyContext>, persistent: ContextId, context: ContextId,
                         keyValue: KeyValue, others: seq<KeyValue>, withKey: seq<KeyValue>)
    requires ValidContexts(contexts)
    ensures var r := ResolvePress(contexts, persistent, context, keyValue, others, withKey);
      r.binding.Some? ==>
        && r.command == r.binding.value.command && r.command != EOF
        && (BoundIn(contexts, context, r.binding.value) || BoundIn(contexts, BRL_CTX_DEFAULT, r.binding.value))
        && r.binding.value.combination ==
             (if r.immediate then SearchTarget(others, Some(keyValue)) else SearchTarget(withKey, None))
    ensures var r := ResolvePress(contexts, persistent, context, keyValue, others, withKey);
      r.binding.Some? && (context == BRL_CTX_DEFAULT || KeyboardCommand(contexts, persistent, context, withKey) != EOF) ==>
        BoundIn(contexts, context, r.binding.value)
  {
  }

  lemma ResolutionWithoutBinding(contexts: map<ContextId, KeyContext>, persistent: ContextId, context: ContextId,
                                 keyValue: KeyValue, others: seq<KeyValue>, withKey: seq<KeyValue>)
    requires ValidContexts(contexts)
    ensures var r := ResolvePress(contexts, persistent, context, keyValue, others, withKey);
      r.binding.None? ==>
        && (r.immediate <==> r.command == EOF)
        && (r.command != EOF ==> r.command == KeyboardCommand(contexts, persistent, context, withKey))
  {
  }

  /**
   * An unresolved, complete press found nothing in any probe, and an
   * incomplete one found an incomplete combination in one of them.
   */
  lemma ResolutionIncomplete(contexts: map<ContextId, KeyContext>, persistent: ContextId, context: ContextId,
                             keyValue: KeyValue, others: seq<KeyValue>, withKey: seq<KeyValue>)
    requires ValidContexts(contexts)
    ensures var r := ResolvePress(contexts, persistent, context, keyValue, others, withKey);
      r.command == EOF && !r.incomplete ==>
        && (|withKey| <= MAX_MODIFIERS_PER_COMBINATION ==> UnboundIn(contexts, context, SearchTarget(withKey, None)))
        && (|others| <= MAX_MODIFIERS_PER_COMBINATION ==> UnboundIn(contexts, context, SearchTarget(others, Some(keyValue))))
        && (context != BRL_CTX_DEFAULT && |withKey| <= MAX_MODIFIERS_PER_COMBINATION ==>
              UnboundIn(contexts, BRL_CTX_DEFAULT, SearchTarget(withKey, None)))
        && (context != BRL_CTX_DEFAULT && |others| <= MAX_MODIFIERS_PER_COMBINATION ==>
              UnboundIn(contexts, BRL_CTX_DEFAULT, SearchTarget(others, Some(keyValue))))
    ensures var r := ResolvePress(contexts, persistent, context, keyValue, others, withKey);
      r.incomplete ==>
        || IncompleteIn(contexts, context, SearchTarget(others, Some(keyValue)))
        || IncompleteIn(contexts, context, SearchTarget(withKey, None))
        || IncompleteIn(contexts, BRL_CTX_DEFAULT, SearchTarget(others, Some(keyValue)))
        || IncompleteIn(contexts, BRL_CTX_DEFAULT, SearchTarget(withKey, None))
  {
  }

  /** Two context maps that differ at most in the key map of the default context. */
  ghost predicate DifferOnlyInDefaultKeyMap(contexts: map<ContextId, KeyContext>, contexts': map<ContextId, KeyContext>) {
    && contexts.Keys == contexts'.Keys
    && (forall id :: id in contexts && id != BRL_CTX_DEFAULT ==> contexts'[id] == contexts[id])
    && (BRL_CTX_DEFAULT in contexts ==> contexts'[BRL_CTX_DEFAULT] == contexts[BRL_CTX_DEFAULT].(keyMap := contexts'[BRL_CTX_DEFAULT].keyMap))
  }

  /** Binding lookups read only the bindings of a context. */
  lemma FindKeyBindingReadsBindings(contexts: map<ContextId, KeyContext>, contexts': map<ContextId, KeyContext>,
                                    id: ContextId, pressed: seq<KeyValue>, immediate: Option<KeyValue>)
    requires ValidContexts(contexts) && ValidContexts(contexts')
    requires id in contexts <==> id in contexts'
    requires id in contexts ==> contexts'[id].sortedKeyBindings == contexts[id].sortedKeyBindings
    ensures FindKeyBinding(contexts', id, pressed, immediate) == FindKeyBinding(contexts, id, pressed, immediate)
  {
  }

  /**
   * The fallback to the default context repeats the two binding lookups
   * but not keyboard emulation: outside the default context (and not
   * using it for chords), the default context's key map plays no part.
   */
  lemma FallbackSkipsDefaultKeyboard(contexts: map<ContextId, KeyContext>, contexts': map<ContextId, KeyContext>,
                                     persistent: ContextId, context: ContextId,
                                     keyValue: KeyValue, others: seq<KeyValue>, withKey: seq<KeyValue>)
    requires ValidContexts(contexts) && ValidContexts(contexts')
    requires DifferOnlyInDefaultKeyMap(contexts, contexts')
    requires context != BRL_CTX_DEFAULT && KeyboardContext(persistent, context) != BRL_CTX_DEFAULT
    ensures ResolvePress(contexts', persistent, context, keyValue, others, withKey) ==
            ResolvePress(contexts, persistent, context, keyValue, others, withKey)
  {
    FindKeyBindingReadsBindings(contexts, contexts', context, others, Some(keyValue));
    FindKeyBindingReadsBindings(contexts, contexts', context, withKey, None);
    FindKeyBindingReadsBindings(contexts, contexts', BRL_CTX_DEFAULT, others, Some(keyValue));
    FindKeyBindingReadsBindings(contexts, contexts', BRL_CTX_DEFAULT, withKey, None);
    assert KeyboardCommand(contexts', persistent, context, withKey) == KeyboardCommand(contexts, persistent, context, withKey);
  }

  // ---------------------------------------------------------------------
  // KBF_ADJUST

  /** A binding with KBF_ADJUST adds the code of the first pressed key outside group 0. */
  lemma AdjustAddsFirstSetKey(command: Command, binding: Option<KeyBinding>, pressed: seq<KeyValue>, i: nat)
    requires binding.Some? && binding.value.flags & KBF_ADJUST != 0
    requires i < |pressed| && pressed[i].group != 0
    requires forall j :: 0 <= j < i ==> pressed[j].group == 0
    ensures AdjustedCommand(command, binding, pressed) == AddKeyCode(command, pressed[i].key)
  {
  }

  /** Without KBF_ADJUST, without a binding, or with every pressed key in group 0, the command is left as it is. */
  lemma AdjustLeavesCommand(command: Command, binding: Option<KeyBinding>, pressed: seq<KeyValue>)
    requires || binding.None? || binding.value.flags & KBF_ADJUST == 0
             || forall j :: 0 <= j < |pressed| ==> pressed[j].group == 0
    ensures AdjustedCommand(command, binding, pressed) == command
  {
    var first := FirstSetIndex(pressed);
    if first < |pressed| {
      assert pressed[first].group != 0;
    }
  }
}
