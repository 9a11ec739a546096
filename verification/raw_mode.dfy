/**
 * `setRawMode`: the terminal attribute record (`struct termios`) and the
 * static snapshot the function keeps between an enable and a disable.
 * `tcgetattr` and `tcsetattr` become reads and writes of the terminal
 * object's `attrs` field; their failure results, ignored by the source, are
 * not modelled.
 */
module RawMode {
  /** `struct termios`: the four mode words and the control characters. */
  datatype Termios = Termios(iflag: bv32, oflag: bv32, cflag: bv32, lflag: bv32, cc: seq<bv8>)

  /** Local-mode bits (Linux values): canonical line input and echo. */
  const ICANON: bv32 := 0x2
  const ECHO: bv32 := 0x8

  /** Zero-initialised static storage: what `oldt` and `newt` hold before the first call. */
  const ZeroTermios: Termios := Termios(0, 0, 0, 0, seq(32, _ => 0))

  /**
   * The attributes enable installs: `lflag &= ~(ICANON | ECHO)`. Canonical
   * mode and echo are off; every other bit and every other field is as before.
   */
  function RawAttrs(t: Termios): (r: Termios)
    ensures r.lflag & ICANON == 0 && r.lflag & ECHO == 0
    ensures r.lflag & !(ICANON | ECHO) == t.lflag & !(ICANON | ECHO)
    ensures r.iflag == t.iflag && r.oflag == t.oflag && r.cflag == t.cflag && r.cc == t.cc
  {
    t.(lflag := t.lflag & !(ICANON | ECHO))
  }

  /**
   * Applying the raw-mode mask to attributes already in raw mode changes
   * nothing: a second enable before a disable installs the attributes the
   * terminal already has (its snapshot, though, is then the raw copy).
   */
  lemma RawAttrsIdempotent(t: Termios)
    ensures RawAttrs(RawAttrs(t)) == RawAttrs(t)
  {
  }

  /** The terminal on standard input: its current attributes. */
  class Tty {
    var attrs: Termios

    constructor (attrs: Termios)
      ensures this.attrs == attrs
    {
      this.attrs := attrs;
    }
  }

  /** The function-static `oldt` and `newt` of `setRawMode`. */
  class RawModeState {
    var oldt: Termios
    var newt: Termios

    constructor ()
      ensures oldt == ZeroTermios && newt == ZeroTermios
    {
      oldt := ZeroTermios;
      newt := ZeroTermios;
    }

    /**
     * `setRawMode(enable)`. Enable snapshots the terminal's attributes into
     * `oldt` and installs them without ICANON and ECHO; disable reinstalls
     * `oldt`, the snapshot of the most recent enable.
     */
    method SetRawMode(enable: bool, tty: Tty)
      modifies this, tty
      ensures enable ==> oldt == old(tty.attrs) && newt == RawAttrs(old(tty.attrs)) && tty.attrs == newt
      ensures !enable ==> oldt == old(oldt) && newt == old(newt) && tty.attrs == oldt
    {
      if enable {
        oldt := tty.attrs;       // tcgetattr
        newt := RawAttrs(oldt);  // copy, then clear ICANON and ECHO in lflag
        tty.attrs := newt;       // tcsetattr
      } else {
        tty.attrs := oldt;       // tcsetattr
      }
    }
  }

  /** Enable followed by disable leaves the terminal as it was, whatever the state before. */
  method EnableThenDisable(raw: RawModeState, tty: Tty)
    modifies raw, tty
    ensures tty.attrs == old(tty.attrs)
    ensures raw.oldt == old(tty.attrs) && raw.newt == RawAttrs(old(tty.attrs))
  {
    raw.SetRawMode(true, tty);
    raw.SetRawMode(false, tty);
  }
}
