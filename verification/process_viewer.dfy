/**
 The process viewer window: the column headers and which of them sort, the
 sort column and direction, the selected process and the Kill button, and
 how a refresh reconciles the rows with the fresh process list. Percentages
 are modelled as integers.
 */
module ProcessViewer {
  import opened Wrappers
  import opened PyText
  import opened Sorting

  /** One entry of `HEADERS_CONFIG`. */
  datatype Header = Header(text: string, attr: string, sortKey: Option<string>, sortReverse: bool)

  const Headers: seq<Header> := [
    Header("PID", "pid", Some("pid"), false),
    Header("Process Name", "name", Some("name"), false),
    Header("CPU %", "cpu_percent", Some("cpu_percent"), true),
    Header("Mem %", "memory_percent", Some("memory_percent"), true),
    Header("User", "username", Some("username"), false),
    Header("Disk R/W", "io_counters", None, true)
  ]

  /** `_header_config_map.get(attr)`. */
  function HeaderFor(attr: string): (h: Option<Header>)
    ensures h.Some? ==> h.value in Headers && h.value.attr == attr
    ensures h.None? ==> forall k :: 0 <= k < |Headers| ==> Headers[k].attr != attr
  {
    if attr == "pid" then Some(Headers[0])
    else if attr == "name" then Some(Headers[1])
    else if attr == "cpu_percent" then Some(Headers[2])
    else if attr == "memory_percent" then Some(Headers[3])
    else if attr == "username" then Some(Headers[4])
    else if attr == "io_counters" then Some(Headers[5])
    else None
  }

  /** A header becomes a sort button when it has a sort key; the others are
      plain labels. */
  predicate IsButton(h: Header) {
    h.sortKey.Some?
  }

  /** The direction a column starts in when it is chosen: the configured one,
      ascending for a column that is not configured. */
  function DefaultReverse(attr: string): bool {
    match HeaderFor(attr)
    case Some(h) => h.sortReverse
    case None => false
  }

  /** Only the CPU and memory columns start descending, and Disk R/W is a
      label rather than a button. */
  lemma ColumnDefaults(attr: string)
    ensures DefaultReverse(attr) && HeaderFor(attr).Some? && IsButton(HeaderFor(attr).value) <==>
              attr in {"cpu_percent", "memory_percent"}
    ensures HeaderFor(attr).Some? && !IsButton(HeaderFor(attr).value) <==> attr == "io_counters"
  {
  }

  /** The window's state: sort column and direction, selection, the row shown
      for each pid, and whether Kill is enabled. */
  datatype Viewer = Viewer(sortBy: string, reverse: bool, selected: Option<int>, rows: map<int, nat>, killEnabled: bool)

  /** The window as opened, sorting by `sortBy` in its default direction. */
  function OpenViewer(sortBy: string): (v: Viewer)
    ensures v.reverse == DefaultReverse(sortBy) && v.selected.None? && !v.killEnabled && v.rows == map[]
  {
    Viewer(sortBy, DefaultReverse(sortBy), None, map[], false)
  }

  /** Kill is enabled exactly when a process is selected, and only a shown
      process can be selected. */
  predicate Coherent(v: Viewer) {
    && (v.killEnabled <==> v.selected.Some?)
    && (v.selected.Some? ==> v.selected.value in v.rows)
  }

  // ---------------------------------------------------------------------------
  // Sort column and headers
  // ---------------------------------------------------------------------------

  /** `change_sort_order` (before its refresh): the current column flips its
      direction, another column takes its default. */
  function ChangeSort(v: Viewer, attr: string): (r: Viewer)
    ensures attr == v.sortBy ==> r.sortBy == v.sortBy && r.reverse == !v.reverse
    ensures attr != v.sortBy ==> r.sortBy == attr && r.reverse == DefaultReverse(attr)
    ensures r.selected == v.selected && r.rows == v.rows && r.killEnabled == v.killEnabled
  {
    if v.sortBy == attr then v.(reverse := !v.reverse)
    else v.(sortBy := attr, reverse := DefaultReverse(attr))
  }

  /** Clicking the same header twice restores the direction. */
  lemma ChangeSortTwice(v: Viewer, attr: string)
    ensures ChangeSort(ChangeSort(v, attr), attr).sortBy == attr
    ensures attr == v.sortBy ==> ChangeSort(ChangeSort(v, attr), attr) == v
    ensures attr != v.sortBy ==> ChangeSort(ChangeSort(v, attr), attr).reverse == !DefaultReverse(attr)
  {
  }

  /** `_update_header_visuals`: the caption of a sort button. */
  function Caption(v: Viewer, h: Header): string {
    if h.attr == v.sortBy then h.text + " " + (if v.reverse then "▼" else "▲") else h.text
  }

  /** Only the active column carries an arrow, pointing down when the order
      is reversed. */
  lemma CaptionArrow(v: Viewer, h: Header)
    ensures h.attr == v.sortBy ==> Caption(v, h) == h.text + (if v.reverse then " ▼" else " ▲")
    ensures h.attr != v.sortBy ==> Caption(v, h) == h.text
  {
  }

  // ---------------------------------------------------------------------------
  // Selection and Kill
  // ---------------------------------------------------------------------------

  /** `select_process`: clicking the selected row deselects it, clicking any
      other row selects that one. */
  function Select(v: Viewer, pid: int): (r: Viewer)
    ensures v.selected == Some(pid) ==> r.selected.None? && !r.killEnabled
    ensures v.selected != Some(pid) ==> r.selected == Some(pid) && r.killEnabled
    ensures r.rows == v.rows && r.sortBy == v.sortBy && r.reverse == v.reverse
  {
    if v.selected == Some(pid) then v.(selected := None, killEnabled := false)
    else v.(selected := Some(pid), killEnabled := true)
  }

  /** Clicking a shown row keeps the window coherent, and clicking it twice
      leaves nothing selected. */
  lemma SelectCoherent(v: Viewer, pid: int)
    requires Coherent(v) && pid in v.rows
    ensures Coherent(Select(v, pid))
    ensures v.selected != Some(pid) ==> Select(Select(v, pid), pid).selected.None?
  {
  }

  /** What Kill did. */
  datatype KillOutcome = NothingSelected | Cancelled | Killed(pid: int) | NoSuchProcess | AccessDenied

  /** `kill_selected_process`: nothing without a selection; otherwise the user
      confirms, and the process may already be gone or be someone else's. */
  function Kill(v: Viewer, alive: bool, permitted: bool, confirmed: bool): (k: KillOutcome)
    ensures v.selected.None? ==> k == NothingSelected
    ensures k.Killed? <==> v.selected.Some? && alive && confirmed && permitted
    ensures k.Killed? ==> k.pid == v.selected.value
  {
    match v.selected
    case None => NothingSelected
    case Some(pid) =>
      if !alive then NoSuchProcess
      else if !confirmed then Cancelled
      else if !permitted then AccessDenied
      else Killed(pid)
  }

  // ---------------------------------------------------------------------------
  // Refresh
  // ---------------------------------------------------------------------------

  /** What `as_dict` gives for a process; a field the library could not read
      is `None`. */
  datatype Proc = Proc(pid: int, name: Option<string>, cpu: Option<int>, mem: Option<int>, user: Option<string>)

  /** `_get_process_sort_key`: missing numbers count as 0 and missing names
      as ""; names compare lower-cased; a column without a sort key (or an
      unknown one) sorts by pid. */
  function SortKey(sortBy: string, p: Proc): Key {
    match HeaderFor(sortBy)
    case None => Num(p.pid)
    case Some(h) =>
      match h.sortKey
      case None => Num(p.pid)
      case Some(key) =>
        if key == "cpu_percent" then Num(p.cpu.GetOr(0))
        else if key == "memory_percent" then Num(p.mem.GetOr(0))
        else if key == "pid" then Num(p.pid)
        else if key == "name" then Str(Lower(p.name.GetOr("")))
        else Str(Lower(p.user.GetOr("")))
  }

  /** The sort keys the columns give. */
  lemma SortKeys(sortBy: string, p: Proc)
    ensures sortBy == "cpu_percent" ==> SortKey(sortBy, p) == Num(if p.cpu.None? then 0 else p.cpu.value)
    ensures sortBy == "memory_percent" ==> SortKey(sortBy, p) == Num(if p.mem.None? then 0 else p.mem.value)
    ensures sortBy == "name" ==> SortKey(sortBy, p) == Str(if p.name.None? then "" else Lower(p.name.value))
    ensures sortBy == "username" ==> SortKey(sortBy, p) == Str(if p.user.None? then "" else Lower(p.user.value))
    ensures sortBy !in {"cpu_percent", "memory_percent", "name", "username"} ==> SortKey(sortBy, p) == Num(p.pid)
  {
  }

  /** The row each pid ends up on: its position in the sorted list (a pid
      listed twice keeps its later row). */
  function Rows(sorted: seq<Proc>): (rows: map<int, nat>)
    ensures rows.Keys == set k | 0 <= k < |sorted| :: sorted[k].pid
    ensures forall pid :: pid in rows ==> rows[pid] < |sorted| && sorted[rows[pid]].pid == pid
    decreases |sorted|
  {
    if sorted == [] then map[]
    else
      var init := Rows(sorted[..|sorted| - 1]);
      assert forall k :: 0 <= k < |sorted| - 1 ==> sorted[..|sorted| - 1][k] == sorted[k];
      init[sorted[|sorted| - 1].pid := |sorted| - 1]
  }

  /** The processes in the order the rows are laid out. */
  function Sorted(v: Viewer, procs: seq<Proc>): seq<Proc> {
    SortBy(procs, (p: Proc) => SortKey(v.sortBy, p), v.reverse)
  }

  /** `populate_processes` on a successful read of `procs`: the rows are
      exactly the fresh processes, a selection whose process vanished is
      dropped, and Kill is disabled when nothing shown is selected. */
  function Refresh(v: Viewer, procs: seq<Proc>): (r: Viewer)
    ensures r.rows == Rows(Sorted(v, procs))
    ensures r.sortBy == v.sortBy && r.reverse == v.reverse
  {
    var rows := Rows(Sorted(v, procs));
    var vanished := v.rows.Keys - rows.Keys;
    var selected := if v.selected.Some? && v.selected.value in vanished then None else v.selected;
    var kill := if v.selected.Some? && v.selected.value in vanished then false else v.killEnabled;
    var kill' := if selected.None? || selected.value !in rows then false else kill;
    v.(rows := rows, selected := selected, killEnabled := kill')
  }

  /** After a refresh the rows are keyed by exactly the fresh pids, laid out
      in sort order, and a coherent window stays coherent: the selection
      survives only if its process is still there. */
  lemma RefreshReconciles(v: Viewer, procs: seq<Proc>)
    requires Coherent(v)
    ensures var r := Refresh(v, procs);
            && r.rows.Keys == (set p | p in procs :: p.pid)
            && SortedBy(Sorted(v, procs), (p: Proc) => SortKey(v.sortBy, p), v.reverse)
            && Coherent(r)
            && (v.selected.Some? ==> (r.selected == v.selected <==> exists p :: p in procs && p.pid == v.selected.value))
  {
    var s := Sorted(v, procs);
    SortByPerm(procs, (p: Proc) => SortKey(v.sortBy, p), v.reverse);
    SortBySorted(procs, (p: Proc) => SortKey(v.sortBy, p), v.reverse);
    var keys := set k | 0 <= k < |s| :: s[k].pid;
    assert keys == set p | p in procs :: p.pid by {
      forall p | p in procs ensures p.pid in keys {
        assert p in multiset(s);
        var k :| 0 <= k < |s| && s[k] == p;
      }
      forall k | 0 <= k < |s| ensures s[k].pid in set p | p in procs :: p.pid {
        assert s[k] in multiset(procs);
      }
    }
  }
}
