/**
 * Key identities as the keyboard listener reports them. Only equality matters to
 * the tracker. Every key the configuration parser produces is a named
 * constructor, though the listener may also deliver named values the parser
 * never yields (a digit or capital `Char`, `Function(13)`); `Other` stands for
 * the listener's remaining key objects.
 */
module Keys {
  datatype Key =
    | Ctrl
    | Shift
    | Alt
    | Space
    | Tab
    | Enter
    | Function(n: nat)   // F1, F2, ...
    | Char(c: char)      // a key that carries a character
    | Other(code: int)   // a listener key object of no other kind

  /** The three modifiers that may not form a combination on their own. */
  predicate IsModifier(k: Key) {
    k == Ctrl || k == Shift || k == Alt
  }
}
