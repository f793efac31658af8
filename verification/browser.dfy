/**
 The web browser page: the address typed in the entry is stripped and, when
 it names no scheme, given "http://" before it is handed to the embedded
 browser; the page loads a default address the first time it is shown.
 The embedded browser itself is outside the model: the page's record of
 the addresses it handed over stands for it.
 */
module Browser {
  import opened PyText

  const DefaultUrl: string := "https://www.google.com"

  /** The entry's text, whether the default has been loaded, and every
      address handed to the embedded browser, oldest first. */
  datatype Page = Page(entry: string, loadedOnce: bool, loaded: seq<string>)

  /** The page as constructed: an empty entry, nothing loaded. */
  const NewPage: Page := Page("", false, [])

  /** The address starts with one of the two schemes the page recognises. */
  predicate HasScheme(url: string) {
    StartsWith(url, "http://") || StartsWith(url, "https://")
  }

  /** The address `load_url` hands over for the entry text `text`. */
  function Normalize(text: string): (url: string)
    ensures HasScheme(url)
    ensures |Strip(text)| <= |url| && Strip(text) == url[|url| - |Strip(text)|..]
    ensures HasScheme(Strip(text)) <==> url == Strip(text)
  {
    var s := Strip(text);
    if HasScheme(s) then s
    else
      var u := "http://" + s;
      assert u[..7] == "http://";
      assert u[|u| - |s|..] == s;
      u
  }

  /** An address the page produced is stable: normalising it again changes
      nothing. */
  lemma NormalizeIdempotent(text: string)
    ensures Normalize(Normalize(text)) == Normalize(text)
  {
    var u := Normalize(text);
    assert Strip(u) == u by {
      var s := Strip(text);
      StripEdges(text);
      if !HasScheme(s) {
        assert u == "http://" + s;
        assert u[0] == 'h';
        assert u[|u| - 1] == if s == [] then '/' else s[|s| - 1];
      }
      StripNoEdgeSpace(u);
    }
  }

  /** `load_url`: the normalised address is handed over; the entry is
      rewritten only when the scheme was added, and then holds that address. */
  function LoadUrl(p: Page): (r: Page)
    ensures r.loaded == p.loaded + [Normalize(p.entry)]
    ensures HasScheme(Strip(p.entry)) ==> r.entry == p.entry
    ensures !HasScheme(Strip(p.entry)) ==> r.entry == Normalize(p.entry)
    ensures r.loadedOnce == p.loadedOnce
  {
    var s := Strip(p.entry);
    if HasScheme(s) then p.(loaded := p.loaded + [s])
    else
      var u := "http://" + s;
      p.(entry := u, loaded := p.loaded + [u])
  }

  /** Pressing Go a second time loads the same address again. */
  lemma LoadUrlTwice(p: Page)
    ensures var q := LoadUrl(LoadUrl(p));
            |q.loaded| == |p.loaded| + 2 && q.loaded[|q.loaded| - 1] == q.loaded[|q.loaded| - 2]
  {
    var once := LoadUrl(p);
    var u := Normalize(p.entry);
    assert Normalize(once.entry) == u by {
      if !HasScheme(Strip(p.entry)) {
        NormalizeIdempotent(p.entry);
      }
    }
    var q := LoadUrl(once);
    assert q.loaded == (p.loaded + [u]) + [u];
  }

  /** `on_show`: the first showing puts the default address in front of the
      entry's text and loads it; later showings do nothing. */
  function OnShow(p: Page): (r: Page)
    ensures p.loadedOnce ==> r == p
    ensures !p.loadedOnce ==> r.loadedOnce && r.loaded == p.loaded + [Normalize(DefaultUrl + p.entry)]
  {
    if p.loadedOnce then p
    else LoadUrl(p.(entry := DefaultUrl + p.entry)).(loadedOnce := true)
  }

  /** However often the page is shown, the default is loaded once: showing it
      again changes nothing, and a fresh page loads exactly the default. */
  lemma ShowLoadsDefaultOnce(p: Page)
    ensures OnShow(OnShow(p)) == OnShow(p)
    ensures OnShow(NewPage).loaded == [DefaultUrl] && OnShow(NewPage).entry == DefaultUrl
  {
    var e := DefaultUrl + "";
    assert e == DefaultUrl;
    assert e[..8] == "https://";
    StripNoEdgeSpace(e);
  }
}
