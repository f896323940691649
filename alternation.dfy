/** The alternation rule of `Ai.switch`: remember the route just abandoned,
    and flip into "avoid the previous route" mode when the same route was
    abandoned twice in a row. */
module Alternation {
  import opened Tiles

  /** The two fields `switch` owns: `other_path` and `previous_path`
      (`None` until the first switch). */
  datatype Memory = Memory(otherPath: bool, previousPath: Option<seq<Tile>>)

  /** The avoiding filter reads `previous_path`, so the mode flag may only be
      set once a previous route is known. */
  predicate Consistent(m: Memory)
  {
    m.otherPath ==> m.previousPath.Some?
  }

  /** One call of `switch(original_path)`. */
  function Switch(m: Memory, original: seq<Tile>): Memory
  {
    var same := m.previousPath == Some(original);
    Memory(if same then !m.otherPath else m.otherPath, Some(original))
  }

  /** `switch` flips the mode exactly when the abandoned route equals the
      remembered one, always remembers the abandoned route, and so keeps the
      mode flag consistent whatever state it starts from. */
  lemma SwitchSpec(m: Memory, original: seq<Tile>)
    ensures var m' := Switch(m, original);
      && (m'.otherPath != m.otherPath <==> m.previousPath == Some(original))
      && m'.previousPath == Some(original)
      && Consistent(m')
  {
  }

  /** Two switches on the same route, as a stalled turn followed by one more
      stalled drive tick performs: the mode flips exactly when the route
      DIFFERS from the remembered one, the opposite of a single switch. */
  lemma DoubleSwitch(m: Memory, original: seq<Tile>)
    ensures var m' := Switch(Switch(m, original), original);
      && (m'.otherPath != m.otherPath <==> m.previousPath != Some(original))
      && m'.previousPath == Some(original)
  {
  }
}
