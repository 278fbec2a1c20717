# brltty key-table event engine, in Dafny

This project models the key-table event engine of brltty,
`Programs/ktb_translate.c`. The engine turns key press and key release
events from a braille device into braille commands. A `KeyTable` keeps
per-session state:

- the current and the persistent key context;
- the sorted, duplicate-free set of pressed keys;
- the held command and whether it came from an immediate match.

Each event goes through these stages:

- a hotkey lookup;
- a binding lookup with wildcard modifiers and incomplete-combination detection;
- braille-keyboard emulation, which composes dots, the space bar and character flags into a command;
- a fallback to the default context;
- held-command de-duplication;
- context switching through commands of the context block (`processCommand`).

Layout:

- `options.dfy`: the `Option` type.
- `key_values.dfy` (`KeyValues`):
  - a key as a (set, code) pair and its order;
  - the sorted pressed-key array;
  - `findKeyValue`, `insertKeyValue` and `removeKeyValue`, with their lemmas.
- `brl_commands.dfy` (`BrlCommands`):
  - the command word as `bv32`;
  - the constants the engine uses;
  - context-switch decoding.
- `key_contexts.dfy` (`KeyContexts`):
  - combinations, bindings, hotkeys, keyboard functions and contexts;
  - the order the binding tables are sorted in;
  - the sorted lookups.
- `ktb_translate.dfy` (`KeyTranslate`):
  - the functions that specify the engine: `FindKeyBinding`, `FindHotkeyEntry`, `KeyboardCommand`, `SwitchContext`, `ResolvePress`, `Step`, and others;
  - the class `KeyTable`. Its methods follow the C code statement by statement and are proved against those functions.
  - Each call of `processCommand` appends what it hands to `enqueueCommand` to the ghost field `dispatched`.
- `ktb_properties.dfy` (`KeyTranslateProperties`): properties of the lookups and of keyboard emulation.
- `ktb_event_properties.dfy` (`KeyEventProperties`): properties of `processCommand` and `processKeyEvent`. The frame of an event, press and release outcomes, where a resolution comes from, repeat flags, and `KBF_ADJUST`.
- `ktb_findings.dfy` (`KeyTranslateFindings`): the NULL binding dereference on the keyboard-command path (see Findings).

Two details of the code the model follows:

- The immediate key is rewritten to the wildcard code only when its set is non-zero (`Programs/ktb_translate.c:64-66`).
- `KBF_ADJUST` adds the code of the first pressed key whose set is **non-zero** (`Programs/ktb_translate.c:267`).

Integers: commands are `bv32`, 32-bit words where the C code uses `int`.

- EOF is `0xFFFF_FFFF`.
- `command += key` wraps modulo 2^32 (`AddKeyCode`). In C an overflow of the signed `int` at `Programs/ktb_translate.c:268` is undefined behaviour; the wrap-around is this model's choice.
- Context numbers and sets are bytes.
- The argument of a context command is truncated to a byte, as the `unsigned char` assignment does.

## Model

| member | source | states |
|---|---|---|
| KeyValues.KeyLessIsStrictTotalOrder | Programs/ktb_translate.c:84 | the (set, key) order used for hotkeys and pressed keys is irreflexive, transitive and total |
| KeyValues.FindKeyValue | Programs/ktb_translate.c:183-186 | binary search over the sorted pressed keys: found exactly when the key is held, and the position is the sorted insertion point, holding the key when found |
| KeyValues.InsertionPointLocates | Programs/ktb_translate.c:224 | the insertion point of a held key is its index; a key that is not held is absent |
| KeyValues.InsertKeepsSorted | Programs/ktb_translate.c:188-191 | inserting an absent key at its insertion point keeps the array strictly sorted |
| KeyValues.InsertAddsOnce | Programs/ktb_translate.c:188-191 | the insertion adds exactly one copy of the key and keeps every other entry (multiset) |
| KeyValues.RemoveKeepsSorted | Programs/ktb_translate.c:193-196 | removing an entry keeps the array sorted and removes every copy of that key, and nothing else |
| KeyValues.RemoveKeepsInsertionPoint | Programs/ktb_translate.c:219-224 | after the held key is removed, the position found before is still its insertion point, so the press re-inserts it there |
| KeyContexts.CombinationLessIsStrictTotalOrder | Programs/ktb_translate.c:30-35 | the order of key combinations that binding tables are sorted by is a strict total order |
| KeyContexts.SearchKeyBinding | Programs/ktb_translate.c:69-70 | the sorted search finds a binding with the target combination exactly when the table has one |
| KeyContexts.SearchHotkeyEntry | Programs/ktb_translate.c:97-98 | the sorted search finds a hotkey for the key exactly when the table has one |
| KeyContexts.SortedBindingsUnique | Programs/ktb_translate.c:69 | in a sorted table two bindings with the same combination are the same binding |
| KeyTranslate.SearchTarget | Programs/ktb_translate.c:43-66 | the pattern has every pressed key as a modifier, in order, and the immediate key when one is given; keys with a non-zero set get code KTB_KEY_MAX, set-0 keys keep their code |
| KeyTranslate.FindKeyBinding | Programs/ktb_translate.c:38-78 | no match for a missing context or more than MAX_MODIFIERS_PER_COMBINATION pressed keys; a match is a binding of the table with the target combination and a command other than EOF; an incomplete result means the table binds the target to EOF; no match otherwise means no binding has the target |
| KeyTranslateProperties.FindKeyBindingFindsBinding | Programs/ktb_translate.c:69-73 | a binding with the target combination is found: returned when its command is not EOF, reported incomplete otherwise |
| KeyTranslateProperties.FindKeyBindingIgnoresCodesOutsideGroupZero | Programs/ktb_translate.c:58-66 | the lookup cannot tell apart keys of the same non-zero set, pressed or immediate |
| KeyTranslate.FindHotkeyEntry | Programs/ktb_translate.c:87-103 | a hotkey is found exactly when the context exists and has one for the key |
| KeyTranslateProperties.ScanKeysEmulatable | Programs/ktb_translate.c:121-126 | the keyboard scan succeeds exactly when every pressed key has set 0 and a function in the key map |
| KeyTranslateProperties.ScanKeysPressed | Programs/ktb_translate.c:128-138 | a successful scan has seen a dot exactly when some key's bit lies in BRL_MSK_ARG, and the space bar exactly when some key's bit is zero |
| KeyTranslateProperties.ScanBitsIncludePassDots | Programs/ktb_translate.c:114 | the composed bits include BRL_BLK_PASSDOTS |
| KeyTranslateProperties.ScanBitsIncludeKey | Programs/ktb_translate.c:131 | the composed bits include the function bit of every pressed key |
| KeyTranslateProperties.ScanBitsLeast | Programs/ktb_translate.c:114-131 | the composed bits have no other bits: any mask covering BRL_BLK_PASSDOTS and each pressed key's bit covers them |
| KeyTranslateProperties.KeyboardCommandFails | Programs/ktb_translate.c:105-154 | EOF when the context (the persistent one for chords) or its key map is missing, when a key has a non-zero set or no function, and, unless a chord with the space bar was asked for, when a dot and the space bar were both pressed or neither was |
| KeyTranslateProperties.KeyboardCommandComposed | Programs/ktb_translate.c:141-150 | otherwise the command is the composed bits, with the superimposed bits exactly when a dot was pressed, and BRL_DOTC exactly when chords were asked for and the space bar was pressed |
| KeyTranslateProperties.ScannedCommandFlags | Programs/ktb_translate.c:141-146 | a keyboard command made with a dot pressed carries the superimposed bits, and one made for a chord request with the space bar carries BRL_DOTC |
| KeyTranslate.KeyTable.ScanPressedKeys | Programs/ktb_translate.c:118-139 | the loop over the pressed keys yields the scan result and, when it succeeds, the OR of the bits |
| KeyTranslate.KeyTable.AddKeyboardFunction | Programs/ktb_translate.c:129-137 | one key's bit is ORed in; a zero bit marks the space bar, a bit within BRL_MSK_ARG a dot |
| KeyTranslate.KeyTable.FinishKeyboardCommand | Programs/ktb_translate.c:141-150 | the tail of makeKeyboardCommand (superimposed bits, chord flag, dot/space test) equals `ScannedCommand` of the scan and the bits |
| KeyTranslate.KeyTable.EmulateKeyboard | Programs/ktb_translate.c:113-151 | keyboard emulation over a key map equals `ScannedCommand` of `ScanKeys` and `ScanBits` of the pressed keys |
| KeyTranslate.KeyTable.MakeKeyboardCommand | Programs/ktb_translate.c:105-154 | makeKeyboardCommand equals `KeyboardCommand` of the table's state and changes nothing |
| KeyTranslate.KeyTable.ProcessCommand | Programs/ktb_translate.c:156-181 | the table becomes `SwitchContext` of its state, and `Forwarded(command)` is appended to the dispatched commands |
| KeyEventProperties.ForwardedNeverSwitches | Programs/ktb_translate.c:175-180 | what reaches the queue is never a context command; other commands are forwarded unchanged |
| KeyEventProperties.SwitchContextKeepsValid | Programs/ktb_translate.c:162-171 | processCommand changes only the two context fields and always to an existing context |
| KeyEventProperties.SwitchContextChanges | Programs/ktb_translate.c:162-171 | the current context changes only through a non-delayed context command naming an existing context; the persistent one changes only through such a command, to its target, and only when the target is not temporary |
| KeyEventProperties.SwitchContextIgnoresOthers | Programs/ktb_translate.c:161-177 | a command outside the context block, and a delayed context command, leaves the table as it was |
| KeyEventProperties.SwitchContextTakesEffect | Programs/ktb_translate.c:162-171 | such a command makes its context current, and persistent exactly when the context is not temporary |
| KeyEventProperties.SwitchContextIdempotent | Programs/ktb_translate.c:162-171 | processing the same command twice switches as processing it once |
| KeyTranslate.KeyTable.FindPressedKey | Programs/ktb_translate.c:183-186 | found exactly when the key is held; the position is its sorted insertion point |
| KeyTranslate.KeyTable.InsertPressedKey | Programs/ktb_translate.c:188-191 | the pressed keys become the key inserted at the position |
| KeyTranslate.KeyTable.RemovePressedKey | Programs/ktb_translate.c:193-196 | the pressed keys lose the entry at the position |
| KeyTranslate.KeyTable.ProcessKeyEvent | Programs/ktb_translate.c:198-321 | the new state and returned classification are those of `Step`, and the commands given to the queue are those of its issued command |
| KeyTranslate.KeyTable.ProcessHotkey | Programs/ktb_translate.c:214-217 | the hotkey branch equals `HotkeyOutcome` |
| KeyTranslate.KeyTable.ProcessKey | Programs/ktb_translate.c:218-298 | the non-hotkey branch equals `KeyOutcome` |
| KeyTranslate.KeyTable.ResolvePressedKey | Programs/ktb_translate.c:220-248 | the five probes, with the remove / look up / re-insert of the fallback, give `ResolvePress` of the keys without and with the new key, and leave the key inserted |
| KeyTranslate.KeyTable.CommitPress | Programs/ktb_translate.c:250-286 | the press outcome equals `PressOutcome` |
| KeyTranslate.KeyTable.IssueCommand | Programs/ktb_translate.c:257-278 | the raw command and the immediate flag are stored; the adjusted, flagged command is processed |
| KeyTranslate.KeyTable.AdjustCommand | Programs/ktb_translate.c:261-272 | the adjust loop gives `AdjustedCommand` |
| KeyTranslate.KeyTable.CommitRelease | Programs/ktb_translate.c:287-297 | the release outcome equals `ReleaseOutcome` |
| KeyTranslate.KeyTable.LogKeyEvents | Programs/ktb_translate.c:323-326 | event tracing is switched on |
| KeyTranslate.FirstSetIndex | Programs/ktb_translate.c:264-270 | the index of the first pressed key with a non-zero set, or the count when there is none |
| KeyEventProperties.StepKeepsValid | Programs/ktb_translate.c:198-321 | an event keeps the pressed keys sorted and both contexts existing |
| KeyEventProperties.StepUsesEventContext | Programs/ktb_translate.c:211 | the event is evaluated in the caller's context, or in the current context from before a press reset it when the default marker is given: the hotkey lookup, the press resolution and the hotkey, press or release outcome all run in that context |
| KeyEventProperties.StepContexts | Programs/ktb_translate.c:212 | unless a context command is issued, a press returns to the persistent context (a temporary context lasts one press), a release keeps the current one, and the persistent context stays |
| KeyEventProperties.StepKeepsFrame | Programs/ktb_translate.c:198-298 | the pressed keys change only by removing and re-inserting the event's key of a non-hotkey event; contexts change only by an issued context command |
| KeyEventProperties.PressOutcomeKeepsFrame | Programs/ktb_translate.c:250-286 | a press outcome keeps the pressed keys, and the contexts unless it issues a context command |
| KeyEventProperties.ReleaseOutcomeKeepsFrame | Programs/ktb_translate.c:287-297 | likewise for a release |
| KeyEventProperties.HotkeyOutcomeKeepsFrame | Programs/ktb_translate.c:214-217 | likewise for a hotkey |
| KeyEventProperties.KeyOutcomeKeepsFrame | Programs/ktb_translate.c:218-298 | a non-hotkey event leaves the keys with the event's key removed, and put back on press |
| KeyEventProperties.HotkeyEvent | Programs/ktb_translate.c:214-217 | a hotkey's press or release command is issued unless it is BRL_CMD_NOOP; the state is KTS_HOTKEY; pressed keys, held command and immediate flag are unchanged |
| KeyEventProperties.KeysAfterEvent | Programs/ktb_translate.c:219-224 | the keys stay strictly sorted; after a press the key is held exactly once, after a release not at all, others unchanged (multiset) |
| KeyEventProperties.StepPressedKeys | Programs/ktb_translate.c:219-238 | the same for the pressed keys after a non-hotkey event |
| KeyEventProperties.ResolutionOrigin | Programs/ktb_translate.c:222-248 | a bound command comes from a binding of the event's or the default context: an immediate one matches the other held keys plus the new key as immediate key (looked up before insertion), a derived one all held keys; the default context is consulted only in a non-default context after keyboard emulation failed |
| KeyEventProperties.ResolutionWithoutBinding | Programs/ktb_translate.c:231-247 | without a binding the command is the keyboard command of all held keys and not immediate, or EOF |
| KeyEventProperties.ResolutionIncomplete | Programs/ktb_translate.c:221-247 | an unresolved press with no incomplete flag found no binding in any probe that ran (a probe runs only for at most MAX_MODIFIERS_PER_COMBINATION modifiers); for any number of held keys, an incomplete flag means some probe found a combination bound to EOF |
| KeyEventProperties.FindKeyBindingReadsBindings | Programs/ktb_translate.c:38-78 | a binding lookup reads only the context's binding table |
| KeyEventProperties.FallbackSkipsDefaultKeyboard | Programs/ktb_translate.c:235-247 | the default-context fallback does not retry keyboard emulation: the default context's key map plays no part outside it |
| KeyEventProperties.PressWithoutCommand | Programs/ktb_translate.c:250-256 | no command: KTS_MODIFIERS when incomplete, else KTS_UNBOUND; a held command is cleared and BRL_CMD_NOOP issued, otherwise nothing |
| KeyEventProperties.PressWithNewCommand | Programs/ktb_translate.c:257-281 | a new command is held raw with the immediate flag of its match, and issued adjusted with its repeat flags; KTS_COMMAND |
| KeyEventProperties.PressWithHeldCommand | Programs/ktb_translate.c:282-285 | the held command again: nothing issued, KTS_COMMAND, only the pressed keys and the context reset change |
| KeyEventProperties.RepeatDelayAlwaysSet | Programs/ktb_translate.c:274-278 | an issued command always has BRL_FLG_REPEAT_DELAY |
| KeyEventProperties.RepeatInitialOnlyWhenImmediate | Programs/ktb_translate.c:274-278 | BRL_FLG_REPEAT_INITIAL is added exactly for an immediate match |
| KeyEventProperties.RepeatFlagsKeepOtherBits | Programs/ktb_translate.c:274-278 | all other bits of the command are kept |
| KeyEventProperties.DerivedSwitchWaits | Programs/ktb_translate.c:163 | a context command from a derived match is delayed on the press and does not switch |
| KeyEventProperties.ImmediateSwitchActs | Programs/ktb_translate.c:163-168 | one from an immediate match switches at once |
| KeyEventProperties.ReleaseWithHeldCommand | Programs/ktb_translate.c:288-297 | a release ends a held command: BRL_CMD_NOOP after an immediate match, the raw held command otherwise; KTS_UNBOUND |
| KeyEventProperties.ReleaseWithoutHeldCommand | Programs/ktb_translate.c:288 | with nothing held a release issues nothing and only removes the key |
| KeyEventProperties.AdjustAddsFirstSetKey | Programs/ktb_translate.c:261-272 | with KBF_ADJUST, the code of the first pressed key with a non-zero set is added |
| KeyEventProperties.AdjustLeavesCommand | Programs/ktb_translate.c:261-272 | without KBF_ADJUST, without a binding, or with no such key, the command is unchanged |
| KeyTranslateFindings.AdjustedCommandAsWritten | Programs/ktb_translate.c:261 | as written, the adjust test has no defined result exactly when there is no binding |
| KeyTranslateFindings.KeyboardPressReadsMissingBinding | Programs/ktb_translate.c:228-261 | a concrete press that resolves through keyboard emulation reaches the adjust test with no binding |
| KeyTranslateFindings.KeyboardPressIssuesUnadjusted | Programs/ktb_translate.c:231-278 | with no adjustment for a missing binding, that press issues the dot-1 command with BRL_FLG_REPEAT_DELAY |

## Left out

- Logging: the `snprintf`/`LogPrint` trace of each event (`Programs/ktb_translate.c:300-318`) is formatting and I/O. `logKeyEvents` is modelled as setting a flag.
- `enqueueCommand`: its result and semantics belong to a foreign queue. It is modelled only as an append to the ghost `dispatched` sequence, and the return values of `processCommand` are not modelled.
- `insertKeyValue`: the memory growth behind it (`pressedSize`) and a failed allocation are not modelled. The pressed keys are a sequence that always takes the insertion.
- The `bsearch` mechanics are not modelled. Binding and hotkey lookups are specified by what the sorted search finds.
- Headers: `compareKeyBindings`, `compareKeyValues`, `getKeyContext`, `isTemporaryKeyContext` and `keyboardFunctionTable` come from headers that are not part of this model.
  - The combination order is a strict total order of the model's own.
  - A context is a map entry.
  - The temporary flag is a field.
  - The keyboard function bits are the dots, zero for the space bar, and the four character flags.
- The values of the `brldefs.h` constants (`BRL_MSK_*`, `BRL_BLK_*`, `BRL_FLG_*`, `BRL_DOT*`, `BRL_CTX_*`, `KBF_ADJUST`, `MAX_MODIFIERS_PER_COMBINATION`) are an assumed layout, and so is `KTB_KEY_MAX` (taken as `0xFF`, so a key map has 256 entries).
- A loaded context's bindings are assumed strictly sorted by the combination order (`BindingsSorted`), so no context binds one combination twice. `FindKeyBindingFindsBinding` depends on that. `BRL_DELAYED_COMMAND` is taken as "DELAY set, INITIAL clear".
- A NULL binding or hotkey table is modelled as an empty one, which finds nothing in the same way.
- Table loading, and the construction of contexts and key maps, are not modelled. The constructor takes loaded contexts as given.
- The loader is assumed always to create the default context: the constructor requires `BRL_CTX_DEFAULT` among the contexts, and `ValidState` requires the current and persistent contexts to exist.
- `Bindings/Java/parameters/CursorDotsParameter.java` and `Programs/route.h` are not part of this model: one is a wrapper over a connection library, the other process-management declarations.
- KeyEventProperties.AdjustAddsFirstSetKey: states the adjusted value as `AddKeyCode`, a 32-bit wrapping addition. It does not restate that as integer arithmetic.

## Findings

| source | as written | input that shows it | evidently intended | confidence | as-written member | corrected member |
|---|---|---|---|---|---|---|
| Programs/ktb_translate.c:261 | `binding->flags` is read after a press resolved through `makeKeyboardCommand`, where `binding` is NULL (it was last assigned by the failed probe at :228) | a table with only a default context, no bindings, and a key map with dot 1 on key 1; nothing held; press set 0, key 1 in the default context. It resolves to the keyboard command BRL_BLK_PASSDOTS\|BRL_DOT1 with no binding | a keyboard command has no binding and is issued unadjusted | not executed | KeyTranslateFindings.AdjustedCommandAsWritten, KeyTranslateFindings.KeyboardPressReadsMissingBinding | KeyTranslate.AdjustedCommand, KeyEventProperties.AdjustLeavesCommand, KeyTranslateFindings.KeyboardPressIssuesUnadjusted |
