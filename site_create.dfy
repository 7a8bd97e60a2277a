/** `Site.create(engine)`: picks the adapter module for an engine
    identifier, which is either a URL or the name of a module. URL parsing
    and module loading are inputs: `link` is what `url.parse(engine)` gave
    (or `Unparsable` when it threw), and `loader` says which module names
    can be loaded. */
module SiteCreate {
  import opened Wrappers
  import opened JsText

  /** The outcome of `parseURL(engine)`. Node's parser can give a hostname
      with a `null` pathname (a scheme without `//`, as in `mailto:a@b.c`). */
  datatype ParsedUrl = Unparsable | Parsed(hostname: Option<string>, pathname: Option<string>)

  /** A module `require` returns: a built-in adapter `./site/<file>.js`, or
      an external module loaded by its own name. */
  datatype Module = SiteModule(file: string) | ExternalModule(id: string)

  /** The names the lookup by name can load: `builtins` holds each
      `<engine>` for which `./site/<engine>.js` exists, `installed` each name
      `require` finds as an external module. The six adapter files the
      hostname rules load are taken to ship with the package, so the loader
      does not govern them. */
  datatype Loader = Loader(builtins: set<string>, installed: set<string>)

  /** The failure message of `Site.create`, word for word. */
  const NotFoundPrefix := "Could find site module with: "

  /** The `TypeError` V8 raises for `link.pathname.includes(...)` when the
      pathname is `null`; the wording is the engine's, not the file's. */
  const NullPathnameMessage := "Cannot read properties of null (reading 'includes')"

  /** `link && link.hostname`: the engine parsed as a URL with a non-empty
      hostname. */
  predicate HasHostname(link: ParsedUrl) {
    link.Parsed? && link.hostname.Some? && link.hostname.value != ""
  }

  /** The path test of the forum fallback. */
  predicate IsForumPath(pathname: string) {
    Includes(pathname, "/forums/") || Includes(pathname, "/tags/")
  }

  /** `Site.create(engine)`. */
  function Create(engine: string, link: ParsedUrl, loader: Loader): (r: Outcome<Module>)
    ensures r.Thrown? ==>
      r.message == (if HasHostname(link) && link.pathname.None? then NullPathnameMessage else NotFoundPrefix + engine)
    ensures HasHostname(link) && r.Returned? ==>
      r.value.SiteModule? && r.value.file in {"ao3", "ffnet", "reddit", "scryer", "wattpad", "xen"}
    ensures !HasHostname(link) ==>
      r == (if engine in loader.builtins then Returned(SiteModule(engine))
            else if engine in loader.installed then Returned(ExternalModule(engine))
            else Thrown(NotFoundPrefix + engine))
  {
    if HasHostname(link) then
      var host := link.hostname.value;
      if Includes(host, "archiveofourown.org") then Returned(SiteModule("ao3"))
      else if Includes(host, "fanfiction.net") then Returned(SiteModule("ffnet"))
      else if Includes(host, "reddit.com") then Returned(SiteModule("reddit"))
      else if Includes(host, "scryer.darklordpotter.net") then Returned(SiteModule("scryer"))
      else if Includes(host, "wattpad.com") then Returned(SiteModule("wattpad"))
      // the forum test is weak and must come after every hostname test
      else if link.pathname.None? then Thrown(NullPathnameMessage)
      else if IsForumPath(link.pathname.value) then Returned(SiteModule("xen"))
      else Thrown(NotFoundPrefix + engine)
    else if engine in loader.builtins then Returned(SiteModule(engine))
    else if engine in loader.installed then Returned(ExternalModule(engine))
    else Thrown(NotFoundPrefix + engine)
  }

  // ---------------------------------------------------------------------
  // The dispatch as an ordered table, an independent statement of the
  // hostname rules.

  /** The hostname matchers in the order they are tried: a domain to look
      for in the hostname and the adapter file it selects. */
  const HostMatchers: seq<(string, string)> := [
    ("archiveofourown.org", "ao3"),
    ("fanfiction.net", "ffnet"),
    ("reddit.com", "reddit"),
    ("scryer.darklordpotter.net", "scryer"),
    ("wattpad.com", "wattpad")
  ]

  /** Matcher `k` fires and no earlier one does. */
  predicate FirstMatchAt(host: string, matchers: seq<(string, string)>, k: int) {
    0 <= k < |matchers| && Includes(host, matchers[k].0)
    && forall j :: 0 <= j < k ==> !Includes(host, matchers[j].0)
  }

  /** The file of the first matcher whose domain the hostname includes. */
  function FirstMatch(host: string, matchers: seq<(string, string)>): (r: Option<string>)
    ensures r.None? <==> forall k :: 0 <= k < |matchers| ==> !Includes(host, matchers[k].0)
    decreases |matchers|
  {
    if matchers == [] then None
    else if Includes(host, matchers[0].0) then Some(matchers[0].1)
    else
      var r := FirstMatch(host, matchers[1..]);
      assert forall k :: 1 <= k < |matchers| ==> matchers[k] == matchers[1..][k - 1];
      r
  }

  /** `FirstMatch` picks the first matcher that fires. */
  lemma {:induction false} FirstMatchIsFirst(host: string, matchers: seq<(string, string)>, k: int)
    requires FirstMatchAt(host, matchers, k)
    ensures FirstMatch(host, matchers) == Some(matchers[k].1)
    decreases k
  {
    if k > 0 {
      assert !Includes(host, matchers[0].0);
      assert FirstMatchAt(host, matchers[1..], k - 1) by {
        forall j | 0 <= j < k - 1 ensures !Includes(host, matchers[1..][j].0) {
          assert matchers[1..][j] == matchers[j + 1];
        }
      }
      FirstMatchIsFirst(host, matchers[1..], k - 1);
    }
  }

  /** The dispatch written as: first matching hostname entry of the table,
      then the forum fallback, then the loader. */
  function CreateByTable(engine: string, link: ParsedUrl, loader: Loader): Outcome<Module> {
    if HasHostname(link) then
      match FirstMatch(link.hostname.value, HostMatchers)
      case Some(file) => Returned(SiteModule(file))
      case None =>
        match link.pathname
        case None => Thrown(NullPathnameMessage)
        case Some(path) =>
          if IsForumPath(path) then Returned(SiteModule("xen"))
          else Thrown(NotFoundPrefix + engine)
    else if engine in loader.builtins then Returned(SiteModule(engine))
    else if engine in loader.installed then Returned(ExternalModule(engine))
    else Thrown(NotFoundPrefix + engine)
  }

  /** The if/else chain of `Site.create` is the ordered table. */
  lemma CreateIsTableDispatch(engine: string, link: ParsedUrl, loader: Loader)
    ensures Create(engine, link, loader) == CreateByTable(engine, link, loader)
  {
    if HasHostname(link) {
      var host := link.hostname.value;
      var m := HostMatchers;
      assert m[1..][1..][1..][1..][1..] == [];
    }
  }

  // ---------------------------------------------------------------------
  // Properties of the dispatch

  /** A URL with a hostname is never looked up by name: whatever names the
      lookup by name could load, the result is the same. */
  lemma HostUrlIgnoresLoader(engine: string, link: ParsedUrl, loader1: Loader, loader2: Loader)
    requires HasHostname(link)
    ensures Create(engine, link, loader1) == Create(engine, link, loader2)
  {
  }

  /** When a hostname matcher fires, the first one that does decides, and
      the path is never looked at. */
  lemma HostMatchWins(engine: string, host: string, path: Option<string>, loader: Loader, k: int)
    requires host != "" && FirstMatchAt(host, HostMatchers, k)
    ensures Create(engine, Parsed(Some(host), path), loader) == Returned(SiteModule(HostMatchers[k].1))
  {
    CreateIsTableDispatch(engine, Parsed(Some(host), path), loader);
    FirstMatchIsFirst(host, HostMatchers, k);
  }

  /** The forum adapter comes out of a hostname URL only when no hostname
      matcher fires and the path has a forum or tag segment; a hostname URL
      that matches neither way fails, with a `TypeError` when its pathname
      is `null`. */
  lemma ForumFallback(engine: string, host: string, path: Option<string>, loader: Loader)
    requires host != ""
    requires forall k :: 0 <= k < |HostMatchers| ==> !Includes(host, HostMatchers[k].0)
    ensures Create(engine, Parsed(Some(host), path), loader)
      == if path.None? then Thrown(NullPathnameMessage)
         else if IsForumPath(path.value) then Returned(SiteModule("xen"))
         else Thrown(NotFoundPrefix + engine)
  {
    assert !Includes(host, HostMatchers[0].0);
    assert !Includes(host, HostMatchers[1].0);
    assert !Includes(host, HostMatchers[2].0);
    assert !Includes(host, HostMatchers[3].0);
    assert !Includes(host, HostMatchers[4].0);
  }

  /** A hostname URL succeeds exactly when some matcher fires or the path
      has a forum or tag segment. */
  lemma HostUrlSucceedsIff(engine: string, link: ParsedUrl, loader: Loader)
    requires HasHostname(link)
    ensures Create(engine, link, loader).Returned?
      <==> (exists k :: 0 <= k < |HostMatchers| && Includes(link.hostname.value, HostMatchers[k].0))
           || (link.pathname.Some? && IsForumPath(link.pathname.value))
  {
    CreateIsTableDispatch(engine, link, loader);
  }

  /** The substring test is permissive: `reddit.com` anywhere in the
      hostname routes to the Reddit adapter, with any text before or after it
      (`www.reddit.com.example.org` included), unless an earlier domain is
      also present. */
  lemma ContainmentNotSuffix(engine: string, before: string, after: string, path: Option<string>, loader: Loader)
    requires !Includes(before + "reddit.com" + after, "archiveofourown.org")
    requires !Includes(before + "reddit.com" + after, "fanfiction.net")
    ensures Create(engine, Parsed(Some(before + "reddit.com" + after), path), loader) == Returned(SiteModule("reddit"))
  {
    var host := before + "reddit.com" + after;
    IncludesInfix(before, "reddit.com", after);
    assert FirstMatchAt(host, HostMatchers, 2);
    HostMatchWins(engine, host, path, loader, 2);
  }

  /** A URL without a hostname (or with an empty one) is looked up by name
      exactly as an engine that does not parse at all. */
  lemma WithoutHostnameByName(engine: string, link: ParsedUrl, loader: Loader)
    requires !HasHostname(link)
    ensures Create(engine, link, loader) == Create(engine, Unparsable, loader)
  {
  }

  /** Any path with a `/forums/` or a `/tags/` segment, wherever it stands,
      passes the forum test. */
  lemma ForumPathOfSegment(before: string, after: string)
    ensures IsForumPath(before + "/forums/" + after)
    ensures IsForumPath(before + "/tags/" + after)
  {
    IncludesInfix(before, "/forums/", after);
    IncludesInfix(before, "/tags/", after);
  }

  /** The forum test holds exactly when `/forums/` or `/tags/` occurs at
      some index of the path. */
  lemma ForumPathIff(path: string)
    ensures IsForumPath(path)
      <==> (exists i :: OccursAt(path, "/forums/", i)) || (exists i :: OccursAt(path, "/tags/", i))
  {
    IncludesIff(path, "/forums/");
    IncludesIff(path, "/tags/");
  }
}
