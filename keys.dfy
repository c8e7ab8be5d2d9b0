/** The key decoding done by the input listener between polls. */
module Keys {
  import opened Cells

  /** The byte that starts an arrow-key sequence. */
  const Esc: char := 27 as char

  /** The byte Ctrl-C produces in raw mode. */
  const Interrupt: char := 3 as char

  /** The three bytes an arrow key sends for each heading. */
  function ArrowKey(h: Heading): string
  {
    match h
    case Up => [Esc, '[', 'A']
    case Down => [Esc, '[', 'B']
    case Right => [Esc, '[', 'C']
    case Left => [Esc, '[', 'D']
  }

  /** The lookup `bytes_to_movement_dict.get`: an arrow sequence's heading, and None for anything else. */
  function MovementOfBytes(s: string): (m: Option<Heading>)
    ensures m.Some? ==> s == ArrowKey(m.value)
    ensures forall h :: s == ArrowKey(h) ==> m == Some(h)
  {
    if s == [Esc, '[', 'A'] then Some(Up)
    else if s == [Esc, '[', 'B'] then Some(Down)
    else if s == [Esc, '[', 'C'] then Some(Right)
    else if s == [Esc, '[', 'D'] then Some(Left)
    else None
  }

  /** What one pass of the listener loop does. */
  datatype KeyAction =
    | QuitKey                              // set key_quit and stop
    | StopListening                        // the game is over: stop
    | Steer(request: Option<Heading>)      // pass the decoded request to set_movement
    | Idle                                 // nothing to do this pass

  /**
   * One pass of the listener: `ch` is the byte read after a successful poll
   * (None after a poll timeout or an empty read), `trailing` the result of
   * reading two more bytes after an escape (None when that read fails).
   * The interrupt byte wins over the game-over check; only an escape
   * leads to a heading request, and an escape followed by anything but an
   * arrow code leads to a request of None.
   */
  function ListenerStep(ch: Option<char>, gameOver: bool, trailing: Option<string>): (a: KeyAction)
    ensures a == QuitKey <==> ch == Some(Interrupt)
    ensures a == StopListening <==> ch != Some(Interrupt) && gameOver
    ensures a.Steer? <==> ch == Some(Esc) && !gameOver && trailing.Some?
    ensures a.Steer? ==> a.request == MovementOfBytes([Esc] + trailing.value)
    ensures a.Steer? && a.request.Some? ==> trailing.value == ArrowKey(a.request.value)[1..]
  {
    if ch.Some? && ch.value == Interrupt then QuitKey
    else if gameOver then StopListening
    else if ch == Some(Esc) then
      match trailing
      case None => Idle
      case Some(rest) => Steer(MovementOfBytes([ch.value] + rest))
    else Idle
  }

  /** Decoding the bytes of an arrow key gives back its heading. */
  lemma {:induction false} ArrowKeyRoundTrip(h: Heading)
    ensures ListenerStep(Some(Esc), false, Some(ArrowKey(h)[1..])) == Steer(Some(h))
  {
    assert [Esc] + ArrowKey(h)[1..] == ArrowKey(h);
  }
}
