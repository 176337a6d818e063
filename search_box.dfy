/** The messages the search component reacts to, and the search box's translation of
    key presses into them. */
module SearchBox {
  import opened Wrappers

  /** `up`, `down`, `cancel` and `go` come from the keyboard; `select` from hovering a result row. */
  datatype Message = Up | Down | Cancel | Go | Select(index: int)

  /** A message the keyboard can produce. */
  predicate IsSimple(m: Message) {
    !m.Select?
  }

  /** The key code that produces a simple message. */
  function KeyCode(m: Message): string
    requires IsSimple(m)
  {
    match m
    case Down => "ArrowDown"
    case Up => "ArrowUp"
    case Go => "Enter"
    case Cancel => "Escape"
  }

  /** The message a key press sends; `None` for every other key, whose default action is
      then left alone (the box prevents the default exactly when it sends a message). */
  function KeyMessage(code: string): (r: Option<Message>)
    ensures r.Some? ==> IsSimple(r.value) && KeyCode(r.value) == code
  {
    if code == "ArrowDown" then Some(Down)
    else if code == "ArrowUp" then Some(Up)
    else if code == "Enter" then Some(Go)
    else if code == "Escape" then Some(Cancel)
    else None
  }

  /** Each simple message has exactly one key. */
  lemma KeyRoundTrip(m: Message)
    requires IsSimple(m)
    ensures KeyMessage(KeyCode(m)) == Some(m)
  {
  }
}
