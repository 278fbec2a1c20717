/**
 * The braille command word: a block code, an argument and flag bits packed
 * into one 32-bit value, with the constants the key table uses.
 * The layout is that of the brltty command header, which is not part of this
 * model; only the relations between these values matter to the proofs.
 */
module BrlCommands {
  import opened KeyValues

  /** A command as the C `int` holds it: 32 bits, so that masks and flags are bitwise. */
  type Command = bv32

  /** No command (the C value -1). */
  const EOF: Command := 0xFFFF_FFFF

  const BRL_CMD_NOOP: Command := 0

  const BRL_MSK_ARG: bv32 := 0x0000_00FF
  const BRL_MSK_BLK: bv32 := 0x0000_FF00
  const BRL_MSK_FLG: bv32 := 0x00FF_0000

  /** Type a braille character given as dots. */
  const BRL_BLK_PASSDOTS: bv32 := 0x2200
  /** Switch to the key context given by the argument. */
  const BRL_BLK_CONTEXT: bv32 := 0x2700

  const BRL_DOT1: bv32 := 0x01
  const BRL_DOT2: bv32 := 0x02
  const BRL_DOT3: bv32 := 0x04
  const BRL_DOT4: bv32 := 0x08
  const BRL_DOT5: bv32 := 0x10
  const BRL_DOT6: bv32 := 0x20
  const BRL_DOT7: bv32 := 0x40
  const BRL_DOT8: bv32 := 0x80
  /** The chord flag: the dots were typed together with the space bar. */
  const BRL_DOTC: bv32 := 0x01_0000

  const BRL_FLG_CHAR_CONTROL: bv32 := 0x04_0000
  const BRL_FLG_CHAR_META: bv32 := 0x08_0000
  const BRL_FLG_CHAR_UPPER: bv32 := 0x10_0000
  const BRL_FLG_CHAR_SHIFT: bv32 := 0x20_0000

  const BRL_FLG_REPEAT_INITIAL: bv32 := 0x80_0000
  const BRL_FLG_REPEAT_DELAY: bv32 := 0x40_0000

  /** Key context identifiers (an `unsigned char`). */
  type ContextId = Byte

  const BRL_CTX_DEFAULT: ContextId := 0
  const BRL_CTX_CHORDS: ContextId := 2

  /** BRL_DELAYED_COMMAND: the command waits for the repeat delay before it takes effect. */
  predicate IsDelayed(command: Command) {
    command & (BRL_FLG_REPEAT_DELAY | BRL_FLG_REPEAT_INITIAL) == BRL_FLG_REPEAT_DELAY
  }

  /** A command of the context-switch block. */
  predicate IsContextCommand(command: Command) {
    command & BRL_MSK_BLK == BRL_BLK_CONTEXT
  }

  /** BRL_CTX_DEFAULT + arg, the context a context-switch command names. */
  function ContextTarget(command: Command): ContextId {
    BRL_CTX_DEFAULT + ((command & BRL_MSK_ARG) as int) % 0x100
  }
}
