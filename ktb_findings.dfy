/**
 * The keyboard-command path of processKeyEvent as written: the press
 * resolves with no binding, and the adjust test then reads the flags of
 * that missing binding. The rest of the model reads "no binding" as "no
 * adjustment" (`AdjustedCommand`).
 */
module KeyTranslateFindings {
  import opened Options
  import opened KeyValues
  import opened BrlCommands
  import opened KeyContexts
  import opened KeyTranslate
  import opened KeyEventProperties

  /**
   * The adjustment as the code is written: the binding's flags are read
   * whatever the binding, so without one there is no defined result.
   */
  function AdjustedCommandAsWritten(command: Command, binding: Option<KeyBinding>, pressed: seq<KeyValue>): (r: Option<Command>)
    ensures r.None? <==> binding.None?
    ensures r.Some? ==> r.value == AdjustedCommand(command, binding, pressed)
  {
    if binding.None? then None else Some(AdjustedCommand(command, binding, pressed))
  }

  /** A key map with dot 1 on key 1 and nothing else. */
  function DotOneKeyMap(): seq<KeyboardFunction> {
    seq(KEY_MAP_SIZE, i => if i == 1 then Dot1 else NoFunction)
  }

  /** A table with only a default context, no bindings, and that key map. */
  function KeyboardOnlyContexts(): map<ContextId, KeyContext> {
    map[BRL_CTX_DEFAULT := KeyContext([], [], Some(DotOneKeyMap()), 0, false)]
  }

  /**
   * Pressing key 1 with nothing held resolves to the keyboard command for
   * dot 1, with no binding: the adjust test then has no binding to read.
   */
  lemma KeyboardPressReadsMissingBinding()
    ensures ValidContexts(KeyboardOnlyContexts())
    ensures var s := TableState(BRL_CTX_DEFAULT, BRL_CTX_DEFAULT, [], EOF, false);
      var resolution := PressResolution(KeyboardOnlyContexts(), s, BRL_CTX_DEFAULT, KeyValue(0, 1));
      && resolution == Resolution(BRL_BLK_PASSDOTS | BRL_DOT1, None, false, false)
      && AdjustedCommandAsWritten(resolution.command, resolution.binding, [KeyValue(0, 1)]).None?
  {
    var contexts := KeyboardOnlyContexts();
    var keyMap := DotOneKeyMap();
    assert keyMap[1] == Dot1;
    var pressed := [KeyValue(0, 1)];
    assert pressed[..0] == [];
    assert ScanKeys(keyMap, pressed) == KeyScan(true, true, false);
    assert ScanBits(keyMap, pressed) == AddFunctionBit(BRL_BLK_PASSDOTS, Dot1);
  }

  /** With "no binding" read as "no adjustment", the same press issues the dot-1 command with the repeat delay flag. */
  lemma KeyboardPressIssuesUnadjusted()
    ensures var s := TableState(BRL_CTX_DEFAULT, BRL_CTX_DEFAULT, [], EOF, false);
      Step(KeyboardOnlyContexts(), s, BRL_CTX_DEFAULT, 0, 1, true).issued ==
        Some(BRL_BLK_PASSDOTS | BRL_DOT1 | BRL_FLG_REPEAT_DELAY)
  {
    var s := TableState(BRL_CTX_DEFAULT, BRL_CTX_DEFAULT, [], EOF, false);
    KeyboardPressReadsMissingBinding();
    var resolution := PressResolution(KeyboardOnlyContexts(), s, BRL_CTX_DEFAULT, KeyValue(0, 1));
    assert KeysWith([], KeyValue(0, 1)) == [KeyValue(0, 1)];
    PressWithNewCommand(KeyboardOnlyContexts(), s, BRL_CTX_DEFAULT, 0, 1);
    AdjustLeavesCommand(resolution.command, None, [KeyValue(0, 1)]);
  }
}
