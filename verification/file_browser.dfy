/**
 The file browser page: which entries of a directory are listed and in what
 order, the clipboard behind Copy, Cut and Paste, the checks made before a
 rename or a new folder, and moving up a level. The file operations
 themselves run on a worker thread; here the page's decision is the result,
 and the outcome of the operation is a parameter.
 */
module FileBrowser {
  import opened Wrappers
  import opened PyText
  import opened Sorting

  /** A path as its components below the root; the root is `[]`. */
  type Path = seq<string>

  /** `path.name`: the last component (empty for the root). */
  function Name(p: Path): string {
    if p == [] then "" else p[|p| - 1]
  }

  /** `path.parent`: the root is its own parent. */
  function Parent(p: Path): (q: Path)
    ensures p != [] ==> q + [Name(p)] == p
    ensures p == [] ==> q == p
  {
    if p == [] then [] else p[..|p| - 1]
  }

  /** A cached entry: its name, whether it is a directory, its size and its
      modification time (whole seconds). */
  datatype Item = Item(name: string, isDir: bool, size: int, mtime: int)

  /** An entry `iterdir()` yields, and whether `stat()` still finds it. */
  datatype DirEntry = DirEntry(item: Item, statOk: bool)

  // ---------------------------------------------------------------------------
  // Listing
  // ---------------------------------------------------------------------------

  predicate Hidden(name: string) {
    StartsWith(name, ".")
  }

  /** `_load_cache`: dot-files are skipped, and so is an entry deleted between
      the listing and its `stat()`; a directory that may not be read gives an
      empty cache (`None`). */
  function LoadCache(listing: Option<seq<DirEntry>>): (cache: seq<Item>)
    ensures listing.None? ==> cache == []
    ensures forall k :: 0 <= k < |cache| ==> !Hidden(cache[k].name)
    ensures listing.Some? ==> forall e :: e in listing.value && e.statOk && !Hidden(e.item.name) ==> e.item in cache
    ensures listing.Some? ==> forall it :: it in cache ==> exists e :: e in listing.value && e.item == it && e.statOk
  {
    match listing
    case None => []
    case Some(es) => Visible(es)
  }

  function Visible(es: seq<DirEntry>): (cache: seq<Item>)
    ensures forall k :: 0 <= k < |cache| ==> !Hidden(cache[k].name)
    ensures forall e :: e in es && e.statOk && !Hidden(e.item.name) ==> e.item in cache
    ensures forall it :: it in cache ==> exists e :: e in es && e.item == it && e.statOk
    decreases |es|
  {
    if es == [] then []
    else
      var rest := Visible(es[1..]);
      assert forall e :: e in es[1..] ==> e in es;
      if es[0].statOk && !Hidden(es[0].item.name) then [es[0].item] + rest else rest
  }

  /** The key `_update_display` sorts by: the lower-cased name, the size or
      the modification time; an unknown criterion falls back to the name. */
  function CriterionKey(criterion: string): Item -> Key {
    if criterion == "Size" then (it: Item) => Num(it.size)
    else if criterion == "Date" then (it: Item) => Num(it.mtime)
    else (it: Item) => Str(Lower(it.name))
  }

  /** `not item['path'].is_dir()`: `False` (directories) sorts before `True`. */
  function DirKey(it: Item): Key {
    Num(if it.isDir then 0 else 1)
  }

  /** `_update_display`: sorted by the criterion (reversed for "Descending"),
      then stably by "is not a directory". */
  function Displayed(cache: seq<Item>, criterion: string, order: string): seq<Item> {
    SortBy(SortBy(cache, CriterionKey(criterion), order == "Descending"), DirKey, false)
  }

  /** The listing shows every cached entry once, all directories before all
      files, and within each group the entries follow the criterion in the
      chosen direction, keeping their cached order where it ties. */
  lemma DisplayOrder(cache: seq<Item>, criterion: string, order: string)
    ensures var shown := Displayed(cache, criterion, order);
            && multiset(shown) == multiset(cache)
            && (forall i, j :: 0 <= i < j < |shown| && shown[j].isDir ==> shown[i].isDir)
  {
    var desc := order == "Descending";
    var first := SortBy(cache, CriterionKey(criterion), desc);
    var shown := SortBy(first, DirKey, false);
    SortByPerm(cache, CriterionKey(criterion), desc);
    SortByPerm(first, DirKey, false);
    SortBySorted(first, DirKey, false);
    forall i, j | 0 <= i < j < |shown| && shown[j].isDir ensures shown[i].isDir {
      assert !Before(DirKey(shown[j]), DirKey(shown[i]), false);
    }
  }

  /** Within the directories, and within the files, the listing is ordered
      by the criterion and keeps the cached order among ties. */
  lemma GroupsFollowCriterion(cache: seq<Item>, criterion: string, order: string, dirs: bool)
    ensures var group := WithKey(Displayed(cache, criterion, order), DirKey, Num(if dirs then 0 else 1));
            && SortedBy(group, CriterionKey(criterion), order == "Descending")
            && group == WithKey(SortBy(cache, CriterionKey(criterion), order == "Descending"), DirKey, Num(if dirs then 0 else 1))
  {
    var desc := order == "Descending";
    var first := SortBy(cache, CriterionKey(criterion), desc);
    var k := Num(if dirs then 0 else 1);
    SortByStable(first, DirKey, false, k);
    SortBySorted(cache, CriterionKey(criterion), desc);
    WithKeySorted(first, DirKey, desc, k, CriterionKey(criterion));
  }

  // ---------------------------------------------------------------------------
  // Navigation
  // ---------------------------------------------------------------------------

  datatype ClipOp = CopyOp | CutOp

  /** The clipboard: a path and an operation, both set or both `None`. */
  datatype Clip = Clip(path: Path, op: ClipOp)

  /** The page: the current directory, the clipboard, the selection, the cached
      listing and the two sort menus. */
  datatype Browser = Browser(cwd: Path, clipboard: Option<Clip>, selected: Option<Path>,
                             cache: seq<Item>, criterion: string, order: string)

  function InitialBrowser(home: Path): (b: Browser)
    ensures b.clipboard.None? && b.selected.None? && b.criterion == "Name" && b.order == "Ascending"
  {
    Browser(home, None, None, [], "Name", "Ascending")
  }

  /** `navigate`: a path that is not a directory is refused; otherwise it
      becomes current, the selection is dropped and the cache reloaded. */
  function Navigate(b: Browser, p: Path, isDir: bool, listing: Option<seq<DirEntry>>): (r: Browser)
    ensures !isDir ==> r == b
    ensures isDir ==> r == b.(cwd := p, selected := None, cache := LoadCache(listing))
  {
    if !isDir then b else b.(cwd := p, selected := None, cache := LoadCache(listing))
  }

  /** `go_up`: moves to the parent unless the current directory is the root. */
  function GoUp(b: Browser, listing: Option<seq<DirEntry>>): (r: Browser)
    ensures b.cwd == [] ==> r == b
    ensures b.cwd != [] ==> r.cwd + [Name(b.cwd)] == b.cwd && r.selected.None?
  {
    if Parent(b.cwd) != b.cwd then Navigate(b, Parent(b.cwd), true, listing) else b
  }

  /** Going up from below the root always shortens the path by one, so
      repeated presses reach the root and stop there. */
  lemma GoUpReachesRoot(b: Browser, listing: Option<seq<DirEntry>>)
    ensures |GoUp(b, listing).cwd| == if b.cwd == [] then 0 else |b.cwd| - 1
    ensures GoUp(b, listing).cwd == [] ==> GoUp(GoUp(b, listing), listing) == GoUp(b, listing)
  {
  }

  /** `select_item`: the clicked entry becomes the only selection. */
  function Select(b: Browser, p: Path): (r: Browser)
    ensures r.selected == Some(p) && r.cwd == b.cwd && r.clipboard == b.clipboard
  {
    b.(selected := Some(p))
  }

  // ---------------------------------------------------------------------------
  // Clipboard
  // ---------------------------------------------------------------------------

  function CopyItem(b: Browser, p: Path): (r: Browser)
    ensures r.clipboard == Some(Clip(p, CopyOp)) && r.cwd == b.cwd
  {
    b.(clipboard := Some(Clip(p, CopyOp)))
  }

  function CutItem(b: Browser, p: Path): (r: Browser)
    ensures r.clipboard == Some(Clip(p, CutOp)) && r.cwd == b.cwd
  {
    b.(clipboard := Some(Clip(p, CutOp)))
  }

  function ClearClipboard(b: Browser): (r: Browser)
    ensures r.clipboard.None? && r.cwd == b.cwd
  {
    b.(clipboard := None)
  }

  /** The background menu's Paste entry is enabled exactly when the clipboard
      holds a path. */
  predicate PasteEnabled(b: Browser) {
    b.clipboard.Some?
  }

  /** What the page hands to its worker thread. */
  datatype Job = CopyJob(src: Path, dest: Path) | MoveJob(src: Path, dest: Path)
               | RenameJob(from: Path, to: Path) | MakeDirJob(at: Path)

  /** A decision: nothing happens, an error dialog, or a job for the worker. */
  datatype Decision = Nothing | Refused(message: string) | Run(job: Job)

  /** `paste_item`: the source must still exist; an existing destination in
      the current directory needs the user's consent (`overwrite`). */
  function Paste(b: Browser, existing: set<Path>, overwrite: bool): (d: Decision)
    ensures b.clipboard.None? || b.clipboard.value.path !in existing ==> d == Refused("Source item does not exist.")
    ensures d.Run? <==>
              && b.clipboard.Some? && b.clipboard.value.path in existing
              && (b.cwd + [Name(b.clipboard.value.path)] !in existing || overwrite)
    ensures d.Run? ==>
              var c := b.clipboard.value;
              d.job == (if c.op == CopyOp then CopyJob(c.path, b.cwd + [Name(c.path)]) else MoveJob(c.path, b.cwd + [Name(c.path)]))
  {
    match b.clipboard
    case None => Refused("Source item does not exist.")
    case Some(c) =>
      if c.path !in existing then Refused("Source item does not exist.")
      else
        var dest := b.cwd + [Name(c.path)];
        if dest in existing && !overwrite then Nothing
        else if c.op == CopyOp then Run(CopyJob(c.path, dest))
        else Run(MoveJob(c.path, dest))
  }

  /** The worker finished a job. A move that succeeded has cleared the
      clipboard (its last step schedules `clear_clipboard`); a copy leaves it
      for further pastes, and a failed move leaves it as it was. Success or
      failure, the page then navigates to its current directory again:
      `cwdIsDir` says whether that is still a directory, `listing` is what
      it now holds. */
  function JobDone(b: Browser, job: Job, succeeded: bool, cwdIsDir: bool, listing: Option<seq<DirEntry>>): (r: Browser)
    ensures job.MoveJob? && succeeded ==> r.clipboard.None?
    ensures !(job.MoveJob? && succeeded) ==> r.clipboard == b.clipboard
    ensures r.cwd == b.cwd && r.criterion == b.criterion && r.order == b.order
    ensures cwdIsDir ==> r.selected.None? && r.cache == LoadCache(listing)
    ensures !cwdIsDir ==> r.selected == b.selected && r.cache == b.cache
  {
    var cleared := if job.MoveJob? && succeeded then ClearClipboard(b) else b;
    Navigate(cleared, b.cwd, cwdIsDir, listing)
  }

  /** A copied item can be pasted again; a moved one cannot, until something
      is copied or cut again. */
  lemma PasteAgain(b: Browser, existing: set<Path>, overwrite: bool, succeeded: bool,
                   cwdIsDir: bool, listing: Option<seq<DirEntry>>)
    requires Paste(b, existing, overwrite).Run?
    ensures var job := Paste(b, existing, overwrite).job;
            PasteEnabled(JobDone(b, job, succeeded, cwdIsDir, listing)) <==> b.clipboard.value.op == CopyOp || !succeeded
  {
  }

  // ---------------------------------------------------------------------------
  // Rename and new folder
  // ---------------------------------------------------------------------------

  /** Whether pathlib keeps a piece of a path string as a component: the
      empty pieces left by repeated or trailing slashes, and ".", are
      dropped. */
  predicate Kept(piece: string) {
    piece != "" && piece != "."
  }

  function KeptParts(pieces: seq<string>): (cs: seq<string>)
    ensures |cs| <= |pieces|
    ensures forall k :: 0 <= k < |cs| ==> Kept(cs[k])
    decreases |pieces|
  {
    if pieces == [] then [] else (if Kept(pieces[0]) then [pieces[0]] else []) + KeptParts(pieces[1..])
  }

  /** `base / answer` with pathlib: the answer's components are appended to
      `base`, or replace it when the answer starts with '/'. */
  function JoinAnswer(base: Path, answer: string): Path {
    var cs := KeptParts(Split(answer, '/'));
    if |answer| > 0 && answer[0] == '/' then cs else base + cs
  }

  lemma {:induction false} KeptPartsAll(pieces: seq<string>)
    requires forall k :: 0 <= k < |pieces| ==> Kept(pieces[k])
    ensures KeptParts(pieces) == pieces
    decreases |pieces|
  {
    if pieces != [] {
      KeptPartsAll(pieces[1..]);
    }
  }

  /** A leading '/' splits off an empty first piece. */
  lemma SplitLeadingSlash(text: string)
    ensures Split("/" + text, '/') == [""] + Split(text, '/')
  {
    var abs := "/" + text;
    assert abs[0] == '/';
    assert IndexOf(abs, '/') == 0;
    assert abs[1..] == text;
  }

  lemma KeptPartsDropsEmpty(rest: seq<string>)
    ensures KeptParts([""] + rest) == KeptParts(rest)
  {
    assert ([""] + rest)[1..] == rest;
  }

  /** The join of pieces starts with the first character of the first one. */
  lemma JoinFirstChar(cs: seq<string>)
    requires cs != [] && cs[0] != ""
    ensures Join(cs, "/") != "" && Join(cs, "/")[0] == cs[0][0]
  {
    if |cs| > 1 {
      assert Join(cs, "/") == cs[0] + "/" + Join(cs[1..], "/");
    }
  }

  /** Components written with '/' between them are read back by the join:
      appended to the base, or alone after a leading '/'. */
  lemma JoinAnswerParts(base: Path, cs: seq<string>)
    requires forall k :: 0 <= k < |cs| ==> Kept(cs[k]) && '/' !in cs[k]
    ensures cs != [] ==> JoinAnswer(base, Join(cs, "/")) == base + cs
    ensures JoinAnswer(base, "/" + Join(cs, "/")) == cs
  {
    var text := Join(cs, "/");
    if cs != [] {
      SplitJoin(cs, '/');
      KeptPartsAll(cs);
      JoinFirstChar(cs);
    } else {
      assert Split(text, '/') == [""];
    }
    SplitLeadingSlash(text);
    KeptPartsDropsEmpty(Split(text, '/'));
  }

  /** An answer without '/' that is neither empty nor "." names one entry of
      `base`. */
  lemma JoinOneName(base: Path, name: string)
    requires Kept(name) && '/' !in name
    ensures JoinAnswer(base, name) == base + [name]
  {
    JoinAnswerParts(base, [name]);
    assert Join([name], "/") == name;
  }

  /** `rename_item`: a cancelled or empty answer, or the same name, does
      nothing; the target is the answer joined onto the item's directory,
      and an existing target is an error. */
  function Rename(p: Path, answer: Option<string>, existing: set<Path>): (d: Decision)
    ensures answer.None? || answer.value == "" || answer.value == Name(p) ==> d == Nothing
    ensures d.Run? <==>
              && answer.Some? && answer.value != "" && answer.value != Name(p)
              && JoinAnswer(Parent(p), answer.value) !in existing
    ensures d.Run? ==> d.job == RenameJob(p, JoinAnswer(Parent(p), answer.value))
    ensures d.Refused? ==> d.message == "'" + answer.value + "' already exists."
  {
    match answer
    case None => Nothing
    case Some(name) =>
      if name == "" || name == Name(p) then Nothing
      else
        var target := JoinAnswer(Parent(p), name);
        if target in existing then Refused("'" + name + "' already exists.")
        else Run(RenameJob(p, target))
  }

  /** `create_folder`: a cancelled or empty answer does nothing; the new
      folder is the answer joined onto the current directory, and an
      existing one is an error. */
  function CreateFolder(b: Browser, answer: Option<string>, existing: set<Path>): (d: Decision)
    ensures answer.None? || answer.value == "" ==> d == Nothing
    ensures d.Run? <==> answer.Some? && answer.value != "" && JoinAnswer(b.cwd, answer.value) !in existing
    ensures d.Run? ==> d.job == MakeDirJob(JoinAnswer(b.cwd, answer.value))
    ensures d.Refused? ==> d.message == "'" + answer.value + "' already exists."
  {
    match answer
    case None => Nothing
    case Some(name) =>
      if name == "" then Nothing
      else
        var target := JoinAnswer(b.cwd, name);
        if target in existing then Refused("'" + name + "' already exists.")
        else Run(MakeDirJob(target))
  }

  /** Neither a rename nor a new folder is ever started onto a path that
      exists. An answer that is a plain name keeps a rename in the item's own
      directory and puts a new folder directly in the current one. */
  lemma NeverOverwrites(b: Browser, p: Path, answer: Option<string>, existing: set<Path>)
    ensures Rename(p, answer, existing).Run? ==> Rename(p, answer, existing).job.to !in existing
    ensures CreateFolder(b, answer, existing).Run? ==> CreateFolder(b, answer, existing).job.at !in existing
    ensures Rename(p, answer, existing).Run? && Kept(answer.value) && '/' !in answer.value ==>
              Parent(Rename(p, answer, existing).job.to) == Parent(p)
    ensures CreateFolder(b, answer, existing).Run? && Kept(answer.value) && '/' !in answer.value ==>
              CreateFolder(b, answer, existing).job.at == b.cwd + [answer.value]
  {
    if answer.Some? && Kept(answer.value) && '/' !in answer.value {
      JoinOneName(Parent(p), answer.value);
      JoinOneName(b.cwd, answer.value);
      assert Parent(Parent(p) + [answer.value]) == Parent(p);
    }
  }

  /** The parent directory's name as a path component. */
  const Up: string := ".."

  lemma UpKept()
    ensures Kept(Up) && '/' !in Up
  {
  }

  lemma JoinPair(a: string, b: string, sep: string)
    ensures Join([a, b], sep) == a + sep + b
  {
    assert [a, b][1..] == [b];
  }

  /** An answer with '/' can leave the item's directory: "../x" names a path
      through the parent, and an absolute answer replaces the whole path. */
  lemma RenameCanLeaveDirectory(p: Path, x: string, cs: seq<string>)
    requires Kept(x) && '/' !in x && Up + "/" + x != Name(p)
    requires forall k :: 0 <= k < |cs| ==> Kept(cs[k]) && '/' !in cs[k]
    ensures Rename(p, Some(Up + "/" + x), {}).job.to == Parent(p) + [Up, x]
    ensures "/" + Join(cs, "/") != Name(p) ==> Rename(p, Some("/" + Join(cs, "/")), {}).job.to == cs
  {
    RenameUp(p, x);
    RenameAbsolute(p, cs);
  }

  lemma RenameUp(p: Path, x: string)
    requires Kept(x) && '/' !in x && Up + "/" + x != Name(p)
    ensures Rename(p, Some(Up + "/" + x), {}).job.to == Parent(p) + [Up, x]
  {
    JoinPair(Up, x, "/");
    UpKept();
    JoinAnswerParts(Parent(p), [Up, x]);
  }

  lemma RenameAbsolute(p: Path, cs: seq<string>)
    requires forall k :: 0 <= k < |cs| ==> Kept(cs[k]) && '/' !in cs[k]
    ensures "/" + Join(cs, "/") != Name(p) ==> Rename(p, Some("/" + Join(cs, "/")), {}).job.to == cs
  {
    JoinAnswerParts(Parent(p), cs);
  }
}
