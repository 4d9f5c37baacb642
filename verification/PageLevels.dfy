/** The size of the page that maps an address. */
module PageLevels {
  import opened Division
  import opened PageSpace
  import opened PageTable

  /** The level of the page at offset `x`, 0 if there is none. */
  function LevelAt(n: Node, level: nat, x: nat): nat
    requires 1 <= level <= 5 && x < Size(level) && Wf(n, level)
    decreases level, n
  {
    match n
    case Absent => 0
    case Page(_, _) => level
    case Table(es, _) => LevelAt(es[x / Size(level - 1)], level - 1, x % Size(level - 1))
  }

  lemma LevelBelow(n: Node, level: nat, x: nat, j: nat, r: nat)
    requires 2 <= level <= 5 && x < Size(level) && Wf(n, level) && !n.Page?
    requires j == x / Size(level - 1) < 512 && r == x % Size(level - 1)
    ensures Wf(Child(n, j), level - 1) && LevelAt(n, level, x) == LevelAt(Child(n, j), level - 1, r)
  {}

  /** A page that is mapped where none was has its own level, and all others keep theirs. */
  lemma {:induction false} InsertedLevel(n: Node, level: nat, o: nat, leaf: nat, page: Node, flags: nat, x: nat)
    requires 1 <= leaf <= 2 && leaf <= level <= 5 && o < Size(level) && o % Size(leaf) == 0 && x < Size(level)
    requires Wf(n, level) && page.Page? && Wf(page, leaf) && !Occupied(n, level, o, leaf)
    ensures Wf(Inserted(n, level, o, leaf, page, flags), level)
    ensures LevelAt(Inserted(n, level, o, leaf, page, flags), level, x) ==
      if o <= x < o + Size(leaf) then leaf else LevelAt(n, level, x)
    decreases level
  {
    InsertedWf(n, level, o, leaf, page, flags);
    if level == leaf {
      DivUnique(o, Size(leaf), 0, o);
    } else {
      var s := Size(level - 1);
      var i, q, j, r := o / s, o % s, x / s, x % s;
      PageInEntry(level, leaf, o, x);
      LevelsBelow(n, Inserted(n, level, o, leaf, page, flags), level, o, leaf, page, flags, x, i, q, j, r);
      if i == j {
        InsertedLevel(Child(n, i), level - 1, q, leaf, page, flags, r);
      }
    }
  }

  lemma LevelsBelow(n: Node, n': Node, level: nat, o: nat, leaf: nat, page: Node, flags: nat, x: nat, i: nat, q: nat,
                    j: nat, r: nat)
    requires 1 <= leaf < level <= 5 && o < Size(level) && x < Size(level) && Wf(n, level)
    requires !Occupied(n, level, o, leaf)
    requires i == o / Size(level - 1) < 512 && q == o % Size(level - 1) && j == x / Size(level - 1) < 512
    requires r == x % Size(level - 1) && n' == Inserted(n, level, o, leaf, page, flags) && Wf(n', level)
    ensures Wf(Child(n, i), level - 1) && Wf(Child(n, j), level - 1) && !Occupied(Child(n, i), level - 1, q, leaf)
    ensures Wf(Inserted(Child(n, i), level - 1, q, leaf, page, flags), level - 1)
    ensures LevelAt(n, level, x) == LevelAt(Child(n, j), level - 1, r)
    ensures LevelAt(n', level, x) ==
      LevelAt(if i == j then Inserted(Child(n, i), level - 1, q, leaf, page, flags) else Child(n, j), level - 1, r)
  {
    OccupiedBelow(n, level, o, leaf, i, q);
    InsertedEntries(n, level, o, leaf, page, flags, i, q);
    LevelBelow(n, level, x, j, r);
    LevelBelow(n', level, x, j, r);
  }
}
