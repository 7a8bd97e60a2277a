/** The `Site` base class: the contract every site adapter inherits. Its
    link normalisation and count parsing are pure string functions; the
    base versions of `ficLinkFromId` and `parseScan` always throw. The only
    state is the display name, which the base constructor leaves unset and
    nothing here changes, so a `Site` is modelled as a value. */
module SiteBase {
  import opened Wrappers
  import opened JsText
  import opened JsNumber

  datatype Site = Site(name: Option<string>)

  /** `new Site()`: a site whose name is `undefined`. */
  function NewSite(): (s: Site)
    ensures s.name == None
  {
    Site(None)
  }

  /** JavaScript truthiness of an optional string: present and non-empty. */
  predicate Truthy(s: Option<string>) {
    s.Some? && s.value != ""
  }

  /** The display name as a JavaScript value: a string or `undefined`. */
  function NameValue(name: Option<string>): JsValue {
    if name.Some? then Str(name.value) else Undefined
  }

  /** The text a template literal inserts for an argument value. */
  function ShowValue(v: JsValue): string {
    match v
    case Undefined => "undefined"
    case Null => "null"
    case Str(s) => s
    case Int(i) => IntToString(i)
  }

  /** `href.replace(/^http:/, 'https:')`: a literal leading `http:` becomes
      `https:`; any other string, including one with `http:` further in, is
      left alone. */
  function ForceHttps(s: string): (r: string)
    ensures StartsWith(s, "http:") ==> r == "https:" + s[5..]
    ensures !StartsWith(s, "http:") ==> r == s
    ensures !StartsWith(r, "http:")
  {
    if StartsWith(s, "http:") then
      var r := "https:" + s[5..];
      assert r[4] == 's';
      r
    else s
  }

  /** `href.replace(/[/]$/, '')`: one trailing slash, if there is one, is
      removed. */
  function StripTrailingSlash(s: string): (r: string)
    ensures EndsWith(s, "/") ==> s == r + "/"
    ensures !EndsWith(s, "/") ==> r == s
    ensures EndsWith(r, "/") <==> EndsWith(s, "//")
  {
    if EndsWith(s, "/") then
      var r := s[..|s| - 1];
      assert |s| >= 2 ==> s[|s| - 2..] == [s[|s| - 2]] + [s[|s| - 1]];
      assert |r| >= 1 ==> r[|r| - 1..] == [s[|s| - 2]];
      r
    else
      assert |s| >= 2 ==> s[|s| - 2..][1..] == s[|s| - 1..];
      s
  }

  /** The string after the optional resolution step of `normalizeLink`:
      `url.resolve(base, href)` when the base is truthy, `href` otherwise.
      The resolver is a parameter. */
  function Resolved(href: string, base: Option<string>, resolve: (string, string) -> string): string {
    if Truthy(base) then resolve(base.value, href) else href
  }

  /** `normalizeLink(href, base)`. An absent or empty href comes back as it
      was; any other comes back resolved, with the insecure scheme upgraded
      and at most one trailing slash removed. */
  function NormalizeLink(href: Option<string>, base: Option<string>, resolve: (string, string) -> string): (r: Option<string>)
    ensures !Truthy(href) ==> r == href
    ensures Truthy(href) ==> (
      var s := ForceHttps(Resolved(href.value, base, resolve));
      r.Some?
      && (EndsWith(s, "/") ==> r.value + "/" == s)
      && (!EndsWith(s, "/") ==> r.value == s)
      && (EndsWith(r.value, "/") <==> EndsWith(s, "//")))
    ensures r.Some? ==> !StartsWith(r.value, "http:")
  {
    if !Truthy(href) then href
    else
      var s := ForceHttps(Resolved(href.value, base, resolve));
      var r := StripTrailingSlash(s);
      StripPreservesPrefix(s, "http:");
      Some(r)
  }

  /** `normalizeFicLink`: the base class delegates to `normalizeLink`. */
  function NormalizeFicLink(href: Option<string>, base: Option<string>, resolve: (string, string) -> string): (r: Option<string>)
    ensures r == NormalizeLink(href, base, resolve)
  {
    NormalizeLink(href, base, resolve)
  }

  /** `normalizeAuthorLink`: the base class delegates to `normalizeLink`. */
  function NormalizeAuthorLink(href: Option<string>, base: Option<string>, resolve: (string, string) -> string): (r: Option<string>)
    ensures r == NormalizeLink(href, base, resolve)
  {
    NormalizeLink(href, base, resolve)
  }

  /** `fetchLink`: the base class does no retrieval and hands the link back. */
  function FetchLink(href: Option<string>): (r: Option<string>)
    ensures r == href
  {
    href
  }

  /** `ficLinkFromId`: not implemented by the base class; it always throws. */
  function FicLinkFromId(site: Site, siteId: string, baseLink: Option<string>): (r: Outcome<string>)
    ensures r.Thrown? && r.message == "ficLinkFromId is unimplemented"
  {
    Thrown("ficLinkFromId is unimplemented")
  }

  const ParseScanPrefix := "Parsing fic list pages is unsupported for "

  /** `parseScan`: not supported by the base class; it always throws, and
      the message names the site and the page. */
  function ParseScan(site: Site, scanLink: JsValue, html: string): (r: Outcome<seq<string>>)
    ensures r.Thrown?
    ensures StartsWith(r.message, ParseScanPrefix + ShowValue(NameValue(site.name)) + " (")
    ensures EndsWith(r.message, " (" + ShowValue(scanLink) + ")")
    ensures |r.message| == |ParseScanPrefix| + |ShowValue(NameValue(site.name))| + |ShowValue(scanLink)| + 3
  {
    var head := ParseScanPrefix + ShowValue(NameValue(site.name));
    var tail := " (" + ShowValue(scanLink) + ")";
    var m := head + tail;
    assert m[..|head| + 2] == head + " (";
    assert m[|m| - |tail|..] == tail;
    Thrown(m)
  }

  /** The argument of `num`, as far as this model distinguishes it. */
  datatype JsValue = Undefined | Null | Str(s: string) | Int(i: int)

  /** What `num` returns: `null`/`undefined` unchanged, or a number. */
  datatype NumResult = UndefinedResult | NullResult | NumberResult(n: JsNumber.Number)

  /** `String(v)` for a value that is not `null` or `undefined`. */
  function ToJsString(v: JsValue): string
    requires v.Str? || v.Int?
  {
    if v.Str? then v.s else IntToString(v.i)
  }

  /** `num(n)`: `null` and `undefined` pass through; anything else is turned
      into a string, trimmed, stripped of every comma and converted with
      `Number`. */
  function Num(v: JsValue): (r: NumResult)
    ensures v.Undefined? <==> r.UndefinedResult?
    ensures v.Null? <==> r.NullResult?
    ensures v.Str? && Trim(v.s) == [] ==> r == NumberResult(Finite(0))
  {
    match v
    case Undefined => UndefinedResult
    case Null => NullResult
    case _ => NumberResult(StringToNumber(RemoveAll(Trim(ToJsString(v)), ',')))
  }

  // ---------------------------------------------------------------------
  // Properties of link normalisation

  /** Removing the last character cannot create a prefix the string did not
      have. */
  lemma StripPreservesPrefix(s: string, p: string)
    requires !StartsWith(s, p)
    ensures !StartsWith(StripTrailingSlash(s), p)
  {
  }

  /** The upgrade changes nothing the second time. */
  lemma ForceHttpsIdempotent(s: string)
    ensures ForceHttps(ForceHttps(s)) == ForceHttps(s)
  {
  }

  /** An `http:` link and the same link with `https:` normalise alike. */
  lemma InsecureAndSecureAgree(rest: string, base: Option<string>, resolve: (string, string) -> string)
    requires !Truthy(base)
    ensures NormalizeLink(Some("http:" + rest), base, resolve) == NormalizeLink(Some("https:" + rest), base, resolve)
  {
    var a := "http:" + rest;
    assert a[..5] == "http:" && a[5..] == rest;
    var b := "https:" + rest;
    assert b[..5] == "https";
  }

  /** With a truthy base, normalising is resolving and then normalising the
      resolved string without a base. */
  lemma NormalizeWithBase(href: string, base: string, resolve: (string, string) -> string)
    requires href != "" && base != ""
    ensures NormalizeLink(Some(href), Some(base), resolve) == NormalizeLink(Some(resolve(base, href)), None, resolve)
  {
  }

  /** Without a base, every string, the empty one included, is upgraded
      and loses one trailing slash. */
  lemma NormalizeWithoutBase(x: string, resolve: (string, string) -> string)
    ensures NormalizeLink(Some(x), None, resolve) == Some(StripTrailingSlash(ForceHttps(x)))
  {
    if x == "" {
      assert ForceHttps(x) == x;
    } else {
      assert Resolved(x, None, resolve) == x;
    }
  }

  /** The upgrade does not change whether a string ends in `//`. */
  lemma ForceHttpsKeepsEnd(x: string)
    ensures EndsWith(ForceHttps(x), "//") <==> EndsWith(x, "//")
  {
    if StartsWith(x, "http:") && |x| >= 7 {
      var y := ForceHttps(x);
      assert y[|y| - 2..] == x[|x| - 2..];
    }
  }

  /** Without a base, normalising a normalised link changes it again exactly
      when the original ended in `//`: only one slash is stripped per pass. */
  lemma NormalizeIdempotentUnlessDoubleSlash(href: Option<string>, resolve: (string, string) -> string)
    ensures NormalizeLink(NormalizeLink(href, None, resolve), None, resolve) == NormalizeLink(href, None, resolve)
        <==> !(href.Some? && EndsWith(href.value, "//"))
  {
    if href.Some? {
      var x := href.value;
      var y := ForceHttps(x);
      var r := StripTrailingSlash(y);
      NormalizeWithoutBase(x, resolve);
      NormalizeWithoutBase(r, resolve);
      ForceHttpsKeepsEnd(x);
      StripPreservesPrefix(y, "http:");
      assert ForceHttps(r) == r;
    }
  }

  /** Without a base, `http:` + `rest` normalises to `https:` + `rest`
      when `rest` does not end in a slash; `http://example.com/a` becomes
      `https://example.com/a`. */
  lemma NormalizeUpgradesScheme(rest: string, resolve: (string, string) -> string)
    requires !EndsWith(rest, "/")
    ensures NormalizeLink(Some("http:" + rest), None, resolve) == Some("https:" + rest)
  {
    var a := "http:" + rest;
    assert a[..5] == "http:" && a[5..] == rest;
    NormalizeWithoutBase(a, resolve);
    var b := "https:" + rest;
    assert |rest| > 0 ==> b[|b| - 1] == rest[|rest| - 1];
  }

  /** `http://example.com/a` normalises to `https://example.com/a`. */
  lemma NormalizeExampleUpgrade(resolve: (string, string) -> string)
    ensures NormalizeLink(Some("http:" + "//example.com/a"), None, resolve) == Some("https:" + "//example.com/a")
  {
    var rest := "//example.com/a";
    assert rest[|rest| - 1] == 'a';
    NormalizeUpgradesScheme(rest, resolve);
  }

  /** Without a base, a secure link that ends in one added slash loses
      exactly that slash. */
  lemma NormalizeStripsOneSlash(a: string, resolve: (string, string) -> string)
    requires StartsWith(a, "https:")
    ensures NormalizeLink(Some(a + "/"), None, resolve) == Some(a)
  {
    var b := a + "/";
    assert !StartsWith(b, "http:") by {
      assert b[4] == a[4] == 's';
    }
    assert ForceHttps(b) == b;
    assert EndsWith(b, "/") by {
      assert b[|b| - 1..] == "/";
    }
    assert b[..|b| - 1] == a;
    assert StripTrailingSlash(b) == a;
    NormalizeWithoutBase(b, resolve);
  }

  /** One trailing slash is stripped from `https://example.com/a/`, and
      only one from `https://example.com/a//`. */
  lemma NormalizeExampleStrip(resolve: (string, string) -> string)
    ensures NormalizeLink(Some("https://example.com/a" + "/"), None, resolve) == Some("https://example.com/a")
    ensures NormalizeLink(Some("https://example.com/a" + "/" + "/"), None, resolve) == Some("https://example.com/a" + "/")
  {
    var a := "https://example.com/a";
    assert a[..6] == "https:";
    NormalizeStripsOneSlash(a, resolve);
    var b := a + "/";
    assert b[..6] == a[..6];
    NormalizeStripsOneSlash(b, resolve);
  }

  /** An absent or empty href passes through even when a base is given. */
  lemma NormalizeExampleAbsent(resolve: (string, string) -> string)
    ensures NormalizeLink(None, Some("https://example.com/"), resolve) == None
    ensures NormalizeLink(Some(""), Some("https://example.com/"), resolve) == Some("")
  {
  }

  /** A missing or empty base is falsy: the resolver is never called, so
      which resolver is given makes no difference. */
  lemma NormalizeIgnoresFalsyBase(href: Option<string>, base: Option<string>,
                                  resolve1: (string, string) -> string, resolve2: (string, string) -> string)
    requires !Truthy(base)
    ensures NormalizeLink(href, base, resolve1) == NormalizeLink(href, None, resolve2)
  {
  }

  // ---------------------------------------------------------------------
  // Properties of count parsing

  /** Commas may stand anywhere, even among the surrounding white space:
      `num` ignores them all. */
  lemma NumIgnoresCommas(s: string)
    ensures Num(Str(s)) == Num(Str(RemoveAll(s, ',')))
  {
    var t := RemoveAll(s, ',');
    TrimOfRemoveAll(s, ',');
    StringToNumberTrims(RemoveAll(Trim(s), ','));
    TrimKeepsAbsence(t, ',');
    StringToNumberTrims(Trim(t));
  }

  /** White space around the text does not change the count. */
  lemma NumIgnoresPadding(front: string, s: string, back: string)
    requires AllWhiteSpace(front) && AllWhiteSpace(back)
    ensures Num(Str(front + s + back)) == Num(Str(s))
  {
    TrimPadded(front, s, back);
  }

  /** A JavaScript integer passes through `num` unchanged. */
  lemma NumOfInteger(n: int)
    ensures Num(Int(n)) == NumberResult(Finite(n))
  {
    var s := IntToString(n);
    IntToStringIsPlain(n);
    TrimOfTrimmed(s);
    StringToNumberOfIntToString(n);
  }

  /** A count displayed with thousands separators reads back as the count. */
  lemma NumOfGroupedCount(n: nat)
    ensures Num(Str(GroupThousands(NatToDigits(n)))) == NumberResult(Finite(n))
  {
    var d := NatToDigits(n);
    assert ',' !in d;
    var g := GroupThousands(d);
    UngroupThousands(d);
    NumIgnoresCommas(g);
    assert Num(Str(g)) == Num(Str(d));
    assert IntToString(n) == d;
    assert Num(Str(d)) == Num(Int(n));
    NumOfInteger(n);
  }

  /** The text of a count, once its commas are gone, is trimmed text with
      no comma: `num` reads it as `Number` does. */
  lemma NumOfPlainDigits(s: string, d: string)
    requires |s| > 0 && HexValue(s[0]) < 10 && HexValue(s[|s| - 1]) < 10
    requires RemoveAll(s, ',') == d
    ensures Num(Str(s)) == NumberResult(StringToNumber(d))
  {
    TrimOfTrimmed(s);
  }

  /** `num("1,234")` is 1234. */
  lemma NumExampleGrouped()
    ensures Num(Str("1,234")) == NumberResult(Finite(1234))
  {
    var s := "1" + "," + "234";
    assert s == "1,234";
    RemoveAllAppend("1" + ",", "234", ',');
    RemoveAllAppend("1", ",", ',');
    assert s[0] == '1' && s[|s| - 1] == '4';
    NumOfPlainDigits(s, "1234");
    StringToNumberExample1234();
  }

  /** `num("1,2,3")` is 123. */
  lemma NumExampleCommas()
    ensures Num(Str("1,2,3")) == NumberResult(Finite(123))
  {
    var s := "1" + "," + "2" + "," + "3";
    assert s == "1,2,3";
    RemoveAllAppend("1" + "," + "2" + ",", "3", ',');
    RemoveAllAppend("1" + "," + "2", ",", ',');
    RemoveAllAppend("1" + ",", "2", ',');
    RemoveAllAppend("1", ",", ',');
    assert s[0] == '1' && s[|s| - 1] == '3';
    NumOfPlainDigits(s, "123");
    StringToNumberExample123();
  }

  /** `num(" 1,2,3 ")` is 123, and so is the same text padded with any
      other white space. */
  lemma NumExamplePadded(pad: string)
    requires AllWhiteSpace(pad)
    ensures Num(Str(pad + "1,2,3" + pad)) == NumberResult(Finite(123))
  {
    NumIgnoresPadding(pad, "1,2,3", pad);
    NumExampleCommas();
  }

  /** `num("abc")` is `NaN`, and `null` and `undefined` come back as they are. */
  lemma NumExampleNaN()
    ensures Num(Str("abc")) == NumberResult(NaN)
    ensures Num(Null) == NullResult && Num(Undefined) == UndefinedResult
  {
    calc {
      Num(Str("abc"));
    ==
      NumberResult(StringToNumber(RemoveAll(Trim("abc"), ',')));
    == { TrimOfTrimmed("abc"); }
      NumberResult(StringToNumber(RemoveAll("abc", ',')));
    == { assert ',' !in "abc"; }
      NumberResult(StringToNumber("abc"));
    == { StringToNumberExampleNaN(); }
      NumberResult(NaN);
    }
  }
}
