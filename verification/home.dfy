/**
 The main menu: the pages it offers, the order their icons appear in
 (alphabetical by label, with Settings kept last), and where each icon is
 placed on the four-column grid.
 */
module Home {
  import opened Wrappers
  import opened Sorting

  /** One menu entry: its label, the page it opens, and its icon file. */
  datatype MenuEntry = MenuEntry(caption: string, page: string, icon: string)

  /** The eleven pages the menu offers. */
  const Radio: MenuEntry := MenuEntry("Radio", "RadioPage", "radio.png")
  const Ai: MenuEntry := MenuEntry("Access V.I.N.C.E.", "AIPage", "ai.png")
  const Status: MenuEntry := MenuEntry("System Status", "StatusPage", "status.png")
  const Gpio: MenuEntry := MenuEntry("GPIO Control", "GPIOPage", "gpio.png")
  const Term: MenuEntry := MenuEntry("Terminal", "TerminalPage", "terminal.png")
  const Files: MenuEntry := MenuEntry("File Browser", "FileBrowserPage", "files.png")
  const Web: MenuEntry := MenuEntry("Web Browser", "BrowserPage", "web.png")
  const Vehicle: MenuEntry := MenuEntry("Vehicle Interface", "VehiclePage", "vehicle.png")
  const Network: MenuEntry := MenuEntry("Network Scanner", "NetworkPage", "network.png")
  const Comms: MenuEntry := MenuEntry("Secure Comms", "CommsPage", "comms.png")
  const Settings: MenuEntry := MenuEntry("Settings", "SettingsPage", "settings.png")

  /** `pages_to_create`, in declaration order; Settings is declared last. */
  const Declared: seq<MenuEntry> := [Radio, Ai, Status, Gpio, Term, Files, Web, Vehicle, Network, Comms, Settings]

  function LabelKey(e: MenuEntry): Key {
    Str(e.caption)
  }

  /** The menu's order: every entry but the last sorted by label, then the
      last one; a list without entries has no last one to take. */
  function Arrange(entries: seq<MenuEntry>): Option<seq<MenuEntry>> {
    if |entries| == 0 then None
    else Some(SortBy(entries[..|entries| - 1], LabelKey, false) + [entries[|entries| - 1]])
  }

  /** The arranged menu holds exactly the declared entries, keeps the last one
      last, and has the others in label order. */
  lemma ArrangeOrders(entries: seq<MenuEntry>)
    ensures Arrange(entries).Some? <==> |entries| > 0
    ensures Arrange(entries).Some? ==>
              var menu := Arrange(entries).value;
              && multiset(menu) == multiset(entries)
              && menu[|menu| - 1] == entries[|entries| - 1]
              && SortedBy(menu[..|menu| - 1], LabelKey, false)
  {
    if |entries| > 0 {
      var init := entries[..|entries| - 1];
      var last := entries[|entries| - 1];
      var sorted := SortBy(init, LabelKey, false);
      SortByPerm(init, LabelKey, false);
      SortBySorted(init, LabelKey, false);
      var menu := sorted + [last];
      assert menu[..|menu| - 1] == sorted;
      assert entries == init + [last];
    }
  }

  /** The menu as shown: alphabetical, with Settings in the last place. */
  const Menu: seq<MenuEntry> := [Ai, Files, Gpio, Network, Radio, Comms, Status, Term, Vehicle, Web, Settings]

  /** Neighbouring labels of the shown pages other than Settings are in
      increasing order. */
  lemma MenuNeighbours()
    ensures forall i :: 0 <= i < 9 ==> Before(LabelKey(Menu[i]), LabelKey(Menu[i + 1]), false)
  {
    assert Before(LabelKey(Ai), LabelKey(Files), false);
    assert Before(LabelKey(Files), LabelKey(Gpio), false);
    assert Before(LabelKey(Gpio), LabelKey(Network), false);
    assert Before(LabelKey(Network), LabelKey(Radio), false);
    assert Before(LabelKey(Radio), LabelKey(Comms), false);
    assert Before(LabelKey(Comms), LabelKey(Status), false);
    assert Before(LabelKey(Status), LabelKey(Term), false);
    assert Before(LabelKey(Term), LabelKey(Vehicle), false);
    assert Before(LabelKey(Vehicle), LabelKey(Web), false);
  }

  /** The shown pages other than Settings are in strictly increasing label
      order. */
  lemma MenuStrictlyOrdered()
    ensures StrictlySortedBy(Menu[..10], LabelKey, false)
  {
    var shown := Menu[..10];
    MenuNeighbours();
    assert forall i :: 0 <= i < |shown| ==> shown[i] == Menu[i];
    StrictFromAdjacent(shown, LabelKey, false);
  }

  /** The shown pages other than Settings, as a list. */
  lemma ShownList()
    ensures Menu[..10] == [Ai, Files, Gpio, Network, Radio, Comms, Status, Term, Vehicle, Web]
  {
  }

  /** The declared pages other than Settings, as a list. */
  lemma DeclaredList()
    ensures Declared[..10] == [Radio, Ai, Status, Gpio, Term, Files, Web, Vehicle, Network, Comms]
  {
  }

  /** Nine exchanges, the ones that turn the declared order into the shown
      one, keep the same entries. */
  lemma MenuSwapsKeepBag(s0: seq<MenuEntry>, s1: seq<MenuEntry>, s2: seq<MenuEntry>, s3: seq<MenuEntry>, s4: seq<MenuEntry>,
                         s5: seq<MenuEntry>, s6: seq<MenuEntry>, s7: seq<MenuEntry>, s8: seq<MenuEntry>, s9: seq<MenuEntry>)
    requires |s0| == 10
    requires s1 == Swap(s0, 0, 1)
    requires s2 == Swap(s1, 1, 5)
    requires s3 == Swap(s2, 2, 3)
    requires s4 == Swap(s3, 3, 8)
    requires s5 == Swap(s4, 4, 5)
    requires s6 == Swap(s5, 5, 9)
    requires s7 == Swap(s6, 6, 8)
    requires s8 == Swap(s7, 7, 9)
    requires s9 == Swap(s8, 8, 9)
    ensures multiset(s9) == multiset(s0)
  {
    SwapKeepsBag(s0, 0, 1);
    SwapKeepsBag(s1, 1, 5);
    SwapKeepsBag(s2, 2, 3);
    SwapKeepsBag(s3, 3, 8);
    SwapKeepsBag(s4, 4, 5);
    SwapKeepsBag(s5, 5, 9);
    SwapKeepsBag(s6, 6, 8);
    SwapKeepsBag(s7, 7, 9);
    SwapKeepsBag(s8, 8, 9);
  }

  /** The rearrangement the menu applies, for any ten entries. */
  lemma MenuPermutation(a: MenuEntry, b: MenuEntry, c: MenuEntry, d: MenuEntry, e: MenuEntry,
                        f: MenuEntry, g: MenuEntry, h: MenuEntry, i: MenuEntry, j: MenuEntry)
    ensures multiset([b, f, d, i, a, j, c, e, h, g]) == multiset([a, b, c, d, e, f, g, h, i, j])
  {
    var s0 := [a, b, c, d, e, f, g, h, i, j];
    var s1 := [b, a, c, d, e, f, g, h, i, j];
    var s2 := [b, f, c, d, e, a, g, h, i, j];
    var s3 := [b, f, d, c, e, a, g, h, i, j];
    var s4 := [b, f, d, i, e, a, g, h, c, j];
    var s5 := [b, f, d, i, a, e, g, h, c, j];
    var s6 := [b, f, d, i, a, j, g, h, c, e];
    var s7 := [b, f, d, i, a, j, c, h, g, e];
    var s8 := [b, f, d, i, a, j, c, e, g, h];
    var s9 := [b, f, d, i, a, j, c, e, h, g];
    assert s1 == Swap(s0, 0, 1);
    assert s2 == Swap(s1, 1, 5);
    assert s3 == Swap(s2, 2, 3);
    assert s4 == Swap(s3, 3, 8);
    assert s5 == Swap(s4, 4, 5);
    assert s6 == Swap(s5, 5, 9);
    assert s7 == Swap(s6, 6, 8);
    assert s8 == Swap(s7, 7, 9);
    assert s9 == Swap(s8, 8, 9);
    MenuSwapsKeepBag(s0, s1, s2, s3, s4, s5, s6, s7, s8, s9);
  }

  /** The shown pages other than Settings are the declared ones rearranged. */
  lemma MenuSameEntries()
    ensures multiset(Menu[..10]) == multiset(Declared[..10])
  {
    DeclaredList();
    ShownList();
    MenuPermutation(Radio, Ai, Status, Gpio, Term, Files, Web, Vehicle, Network, Comms);
  }

  /** The declared pages come out in exactly the order of `Menu`. */
  lemma DeclaredArrangement()
    ensures Arrange(Declared) == Some(Menu)
  {
    var init := Declared[..10];
    var shown := Menu[..10];
    MenuStrictlyOrdered();
    MenuSameEntries();
    SortByPerm(init, LabelKey, false);
    SortBySorted(init, LabelKey, false);
    SortedUnique(shown, SortBy(init, LabelKey, false), LabelKey, false);
    assert Menu == shown + [Menu[10]];
  }

  /** A place on the icon grid. */
  datatype Cell = Cell(row: nat, column: nat)

  /** Where the `i`-th icon goes: the grid fills four columns a row at a
      time. */
  function Place(i: nat): (c: Cell)
    ensures c.column < 4 && 4 * c.row + c.column == i
  {
    Cell(i / 4, i % 4)
  }

  /** No two icons share a cell, and a later icon is never in an earlier
      row. */
  lemma PlacesDistinct(i: nat, j: nat)
    ensures i != j ==> Place(i) != Place(j)
    ensures i <= j ==> Place(i).row <= Place(j).row
  {
  }

  /** The eleven icons take three rows; Settings ends up in the third
      column of the last row. */
  lemma MenuGrid()
    ensures |Menu| == 11 && Menu[10] == Settings
    ensures forall i :: 0 <= i < |Menu| ==> Place(i).row <= 2
    ensures Place(10) == Cell(2, 2)
  {
  }
}
