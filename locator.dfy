/** The shareable link: how components/NoteCreator.tsx builds it, and how the
    browser, react-router's HashRouter (the route `/view/:id` of App.tsx) and
    `URLSearchParams` (the `k` parameter the viewer reads) take it apart
    again. The query string is read as application/x-www-form-urlencoded
    (WHATWG URL Standard, section 5.1), where '+' stands for a space; the
    creator puts raw standard Base64, which may hold '+', into it. */
module Locator {
  import opened Wrappers
  import opened Platform
  import Base64

  /** The link of NoteCreator.tsx: the origin, the page path, then the hash
      route of the note with the key text as the query parameter `k`. */
  function Link(origin: string, pathname: string, noteId: string, keyString: string): (url: string)
    ensures '#' !in origin + pathname ==> Fragment(url) == "/view/" + noteId + "?k=" + keyString
  {
    var url := origin + pathname + "#/view/" + noteId + "?k=" + keyString;
    assert '#' !in origin + pathname ==> Fragment(url) == "/view/" + noteId + "?k=" + keyString by {
      if '#' !in origin + pathname {
        assert url == (origin + pathname) + "#" + ("/view/" + noteId + "?k=" + keyString);
        FragmentOfLink(origin + pathname, "/view/" + noteId + "?k=" + keyString);
      }
    }
    url
  }

  // ------------------------------------------------------ string scanning

  /** `indexOf` of a character, or |s| when it is absent. */
  function Find(s: string, c: char): (i: nat)
    ensures i <= |s| && c !in s[..i]
    ensures i < |s| ==> s[i] == c
    decreases |s|
  {
    if s == "" then 0
    else if s[0] == c then 0
    else
      var j := Find(s[1..], c);
      assert s[..1 + j] == [s[0]] + s[1..][..j];
      1 + j
  }

  lemma FindAbsent(s: string, c: char)
    requires c !in s
    ensures Find(s, c) == |s|
  {
  }

  lemma FindAfter(a: string, b: string, c: char)
    requires c !in a
    ensures Find(a + b, c) == |a| + Find(b, c)
    decreases |a|
  {
    if a == "" {
      assert a + b == b;
    } else {
      assert (a + b)[0] == a[0] != c;
      assert (a + b)[1..] == a[1..] + b;
      FindAfter(a[1..], b, c);
    }
  }

  /** `s.split(c)` as the form parser splits its input on '&'. */
  function SplitOn(s: string, c: char): (parts: seq<string>)
    ensures |parts| >= 1
    decreases |s|
  {
    var i := Find(s, c);
    if i == |s| then [s] else [s[..i]] + SplitOn(s[i + 1..], c)
  }

  function LowerAscii(c: char): char
  {
    if 'A' <= c <= 'Z' then (c as int + 32) as char else c
  }

  // ----------------------------------------------------- percent-decoding

  function HexValue(c: char): (r: Option<nat>)
    ensures r.Some? ==> r.value < 16
  {
    if '0' <= c <= '9' then Some(c as int - '0' as int)
    else if 'a' <= c <= 'f' then Some(c as int - 'a' as int + 10)
    else if 'A' <= c <= 'F' then Some(c as int - 'A' as int + 10)
    else None
  }

  /** Percent-decoding of the URL Standard for escapes of ASCII octets; a
      '%' that does not start one is kept as it is. */
  function PercentDecode(s: string): string
    decreases |s|
  {
    if s == "" then ""
    else if s[0] == '%' && |s| >= 3 && HexValue(s[1]).Some? && HexValue(s[2]).Some?
            && HexValue(s[1]).value * 16 + HexValue(s[2]).value < 128
    then [(HexValue(s[1]).value * 16 + HexValue(s[2]).value) as char] + PercentDecode(s[3..])
    else [s[0]] + PercentDecode(s[1..])
  }

  /** Every '+' becomes a space, as the form parser does before decoding. */
  function PlusToSpace(s: string): (t: string)
    ensures |t| == |s|
    ensures forall i | 0 <= i < |s| :: t[i] == (if s[i] == '+' then ' ' else s[i])
  {
    seq(|s|, i requires 0 <= i < |s| => if s[i] == '+' then ' ' else s[i])
  }

  /** How `URLSearchParams` decodes a name or a value. */
  function FormDecode(s: string): string
  {
    PercentDecode(PlusToSpace(s))
  }

  // -------------------------------------------------------------- parsing

  /** The pages of App.tsx: the note viewer for `/view/:id`, and the creator
      for "/" and every other path (which is redirected to "/"). */
  datatype Route = CreatorRoute | ViewRoute(id: string, query: seq<(string, string)>)

  /** `location.hash` without its '#': what follows the first '#' of the URL. */
  function Fragment(url: string): string
  {
    var i := Find(url, '#');
    if i == |url| then "" else url[i + 1..]
  }

  /** The parts react-router's `parsePath` splits a hash route into. */
  datatype RouterPath = RouterPath(pathname: string, search: string, hash: string)

  function ParsePath(p: string): (r: RouterPath)
    ensures r.pathname != ""
  {
    var h := Find(p, '#');
    var beforeHash := p[..h];
    var q := Find(beforeHash, '?');
    RouterPath(if q == 0 then "/" else beforeHash[..q], beforeHash[q..], p[h..])
  }

  predicate AllSlashes(s: string)
  {
    forall i | 0 <= i < |s| :: s[i] == '/'
  }

  /** The pathname is "/view/" in any letter case, then `segment`, a
      nonempty text without '/', then nothing but slashes. */
  predicate IsViewPath(pathname: string, segment: string)
  {
    && |pathname| >= 6 + |segment|
    && seq(6, i requires 0 <= i < 6 => LowerAscii(pathname[i])) == "/view/"
    && pathname[6..6 + |segment|] == segment
    && segment != "" && '/' !in segment
    && AllSlashes(pathname[6 + |segment|..])
  }

  /** The pattern `/view/:id`: case-insensitive, a nonempty segment without
      '/', optionally followed by slashes. Yields the segment. */
  function MatchView(pathname: string): (r: Option<string>)
    ensures r.Some? ==> IsViewPath(pathname, r.value)
  {
    if |pathname| < 6 || seq(6, i requires 0 <= i < 6 => LowerAscii(pathname[i])) != "/view/" then None
    else
      var rest := pathname[6..];
      var segment := rest[..Find(rest, '/')];
      if segment != "" && AllSlashes(rest[|segment|..]) then Some(segment) else None
  }

  /** `new URLSearchParams(search)`: the name-value pairs in order. */
  function ParseQuery(search: string): seq<(string, string)>
  {
    var s := if |search| > 0 && search[0] == '?' then search[1..] else search;
    ParsePairs(SplitOn(s, '&'))
  }

  function ParsePairs(parts: seq<string>): seq<(string, string)>
  {
    if parts == [] then []
    else (if parts[0] == "" then [] else [ParsePair(parts[0])]) + ParsePairs(parts[1..])
  }

  /** A pair splits at its first '='; without one, the value is "". */
  function ParsePair(p: string): (string, string)
  {
    var i := Find(p, '=');
    if i == |p| then (FormDecode(p), "") else (FormDecode(p[..i]), FormDecode(p[i + 1..]))
  }

  /** `searchParams.get(name)`: the value of the first pair so named. */
  function Get(query: seq<(string, string)>, name: string): (r: Option<string>)
    ensures r.Some? <==> exists i | 0 <= i < |query| :: query[i].0 == name
    ensures r.Some? ==> exists i | 0 <= i < |query| ::
      query[i] == (name, r.value) && forall j | 0 <= j < i :: query[j].0 != name
  {
    if query == [] then None
    else if query[0].0 == name then Some(query[0].1)
    else
      var r := Get(query[1..], name);
      assert forall i | 1 <= i < |query| :: query[i] == query[1..][i - 1];
      r
  }

  /** The page a URL opens, with the route parameter and the query: the
      viewer exactly when the hash route's pathname matches `/view/:id`,
      and then with that segment as the id and the parsed search part as
      the query. */
  function Resolve(url: string): (r: Route)
    ensures var path := ParsePath(Fragment(url));
      && (r.ViewRoute? <==> MatchView(path.pathname).Some?)
      && (r.ViewRoute? ==> IsViewPath(path.pathname, r.id) && r.query == ParseQuery(path.search))
  {
    var path := ParsePath(Fragment(url));
    match MatchView(path.pathname)
    case None => CreatorRoute
    case Some(id) => ViewRoute(id, ParseQuery(path.search))
  }

  // --------------------------------------------------- reading links back

  /** A note id the route gives back unchanged. */
  predicate ValidNoteId(id: string)
  {
    id != "" && '/' !in id && '?' !in id && '#' !in id
  }

  /** The text `crypto.randomUUID()` returns: 36 lower-case hexadecimal
      digits and hyphens in the 8-4-4-4-12 layout. */
  predicate IsUuidText(id: string)
  {
    && |id| == 36
    && forall i | 0 <= i < 36 ::
         if i == 8 || i == 13 || i == 18 || i == 23 then id[i] == '-'
         else '0' <= id[i] <= '9' || 'a' <= id[i] <= 'f'
  }

  lemma UuidIsValidNoteId(id: string)
    requires IsUuidText(id)
    ensures ValidNoteId(id)
  {
    assert id[0] != '-';
    forall c | c in id ensures c != '/' && c != '?' && c != '#' {
      var i :| 0 <= i < |id| && id[i] == c;
    }
  }

  lemma {:induction false} PercentDecodeNoop(s: string)
    requires '%' !in s
    ensures PercentDecode(s) == s
    decreases |s|
  {
    if s != "" {
      PercentDecodeNoop(s[1..]);
    }
  }

  /** Form-decoding leaves text without '%' unchanged exactly when it has
      no '+'. */
  lemma FormDecodeIdentity(s: string)
    requires '%' !in s
    ensures FormDecode(s) == s <==> '+' !in s
  {
    var t := PlusToSpace(s);
    assert '%' !in t by {
      forall i | 0 <= i < |t| ensures t[i] != '%' {
        assert s[i] != '%';
      }
    }
    PercentDecodeNoop(t);
    if '+' !in s {
      assert t == s;
    } else {
      var i :| 0 <= i < |s| && s[i] == '+';
      assert t[i] != s[i];
    }
  }

  lemma FragmentOfLink(prefix: string, frag: string)
    requires '#' !in prefix
    ensures Fragment(prefix + "#" + frag) == frag
  {
    var url := prefix + "#" + frag;
    assert url == prefix + ("#" + frag);
    FindAfter(prefix, "#" + frag, '#');
    assert url[|prefix| + 1..] == frag;
  }

  lemma ParsePathOfRoute(route: string, search: string)
    requires route != "" && '?' !in route && '#' !in route + search
    requires |search| > 0 && search[0] == '?'
    ensures ParsePath(route + search) == RouterPath(route, search, "")
  {
    var p := route + search;
    FindAbsent(p, '#');
    assert p[|p|..] == "";
    assert p[..|p|] == p;
    FindAfter(route, search, '?');
    assert p[..|route|] == route && p[|route|..] == search;
  }

  /** Conversely, every pathname of that form matches, with its segment. */
  lemma MatchViewComplete(pathname: string, segment: string)
    requires IsViewPath(pathname, segment)
    ensures MatchView(pathname) == Some(segment)
  {
    var rest := pathname[6..];
    var tail := pathname[6 + |segment|..];
    assert rest == segment + tail;
    FindAfter(segment, tail, '/');
    if tail != "" {
      assert tail[0] == '/';
    }
    assert Find(rest, '/') == |segment|;
    assert rest[..|segment|] == segment;
    assert rest[|segment|..] == tail;
  }

  lemma MatchViewOfRoute(noteId: string)
    requires ValidNoteId(noteId)
    ensures MatchView("/view/" + noteId) == Some(noteId)
  {
    var route := "/view/" + noteId;
    assert seq(6, i requires 0 <= i < 6 => LowerAscii(route[i])) == "/view/";
    FindAbsent(noteId, '/');
    assert route[6..] == noteId;
    assert noteId[..|noteId|] == noteId;
  }

  lemma ParseQueryOfKey(keyString: string)
    requires '&' !in keyString
    ensures ParseQuery("?k=" + keyString) == [("k", FormDecode(keyString))]
  {
    var pair := "k=" + keyString;
    assert ("?k=" + keyString)[1..] == pair;
    FindAbsent(pair, '&');
    assert SplitOn(pair, '&') == [pair];
    assert pair == "k" + ("=" + keyString);
    FindAfter("k", "=" + keyString, '=');
    assert pair[..1] == "k" && pair[2..] == keyString;
    PercentDecodeNoop("k");
    assert FormDecode("k") == "k";
    assert ParsePairs([pair]) == [ParsePair(pair)] + ParsePairs([]);
  }

  /** Where the link's parts come out again: the route parameter is the note
      id, and `k` is the form-decoding of the key text, not the key text. */
  lemma ResolveLink(origin: string, pathname: string, noteId: string, keyString: string)
    requires '#' !in origin + pathname
    requires ValidNoteId(noteId)
    requires '&' !in keyString && '#' !in keyString
    ensures Resolve(Link(origin, pathname, noteId, keyString))
            == ViewRoute(noteId, [("k", FormDecode(keyString))])
  {
    var route := "/view/" + noteId;
    var search := "?k=" + keyString;
    assert Link(origin, pathname, noteId, keyString) == (origin + pathname) + "#" + (route + search);
    FragmentOfLink(origin + pathname, route + search);
    assert '#' !in route + search;
    ParsePathOfRoute(route, search);
    MatchViewOfRoute(noteId);
    ParseQueryOfKey(keyString);
  }

  /** So the key text is read back exactly when it holds no '+'. */
  lemma KeyReadBack(origin: string, pathname: string, noteId: string, keyString: string)
    requires '#' !in origin + pathname
    requires ValidNoteId(noteId)
    requires '&' !in keyString && '#' !in keyString && '%' !in keyString
    ensures Resolve(Link(origin, pathname, noteId, keyString)).ViewRoute?
    ensures Get(Resolve(Link(origin, pathname, noteId, keyString)).query, "k") == Some(keyString)
            <==> '+' !in keyString
  {
    ResolveLink(origin, pathname, noteId, keyString);
    FormDecodeIdentity(keyString);
  }

  /** Standard Base64 text is ASCII and holds none of '&', '#' and '%'. */
  lemma Base64IsQueryText(b: seq<byte>)
    ensures forall i | 0 <= i < |Base64.Encode(b)| ::
      var c := Base64.Encode(b)[i];
      c as int < 128 && c != '&' && c != '#' && c != '%'
  {
    var e := Base64.Encode(b);
    Base64.EncodeForm(b);
    forall i | 0 <= i < |e| ensures e[i] as int < 128 && e[i] != '&' && e[i] != '#' && e[i] != '%' {
      if i < (4 * |b| + 2) / 3 {
        var v := Base64.Value(e[i], Base64.Standard).value;
        assert Base64.Digit(v, Base64.Standard) == e[i];
      }
    }
  }

  /** A key whose Base64 has a '+' comes back damaged: btoa("~~~") is
      "fn5+", the viewer receives "fn5 ", and atob of that is "~~". */
  lemma PlusInKeyIsLost()
    ensures Base64.Btoa("~~~") == Ok("fn5+")
    ensures FormDecode("fn5+") == "fn5 "
    ensures Base64.Atob("fn5 ") == Ok("~~")
  {
    Base64.BtoaTildes();
    assert PlusToSpace("fn5+") == "fn5 ";
    PercentDecodeNoop("fn5 ");
    AtobOfDamagedKey();
  }

  lemma AtobOfDamagedKey()
    ensures Base64.Atob("fn5 ") == Ok("~~")
  {
    var s := "fn5 ";
    assert Base64.RemoveWhitespace(s[3..]) == "";
    assert Base64.RemoveWhitespace(s[2..]) == "5";
    assert Base64.RemoveWhitespace(s[1..]) == "n5";
    assert Base64.RemoveWhitespace(s) == "fn5";
    assert Base64.RemovePadding("fn5") == "fn5";
    assert Base64.Value('f', Base64.Standard) == Some(31);
    assert Base64.Value('n', Base64.Standard) == Some(39);
    assert Base64.Value('5', Base64.Standard) == Some(57);
    assert Base64.DecodeGroup("fn5", Base64.Standard) == Some([126, 126]);
    assert Base64.ForgivingDecode(s) == Some([126, 126]);
    assert Base64.BinaryString([126, 126]) == "~~";
  }

  // ------------------------------------------------ the escaped variant

  /** The characters `encodeURIComponent` leaves as they are. */
  predicate Unreserved(c: char)
  {
    || 'A' <= c <= 'Z' || 'a' <= c <= 'z' || '0' <= c <= '9'
    || c == '-' || c == '_' || c == '.' || c == '!' || c == '~' || c == '*'
    || c == '\'' || c == '(' || c == ')'
  }

  function HexDigit(v: nat): char
    requires v < 16
  {
    if v < 10 then ('0' as int + v) as char else ('A' as int + v - 10) as char
  }

  predicate IsAscii(s: string)
  {
    forall i | 0 <= i < |s| :: s[i] as int < 128
  }

  /** `encodeURIComponent` on ASCII text: every other character becomes
      '%' and two upper-case hexadecimal digits. */
  function EncodeComponent(s: string): (t: string)
    requires IsAscii(s)
    ensures '+' !in t && '&' !in t && '#' !in t
    decreases |s|
  {
    if s == "" then ""
    else
      var c := s[0];
      var head := if Unreserved(c) then [c] else ['%', HexDigit(c as int / 16), HexDigit(c as int % 16)];
      head + EncodeComponent(s[1..])
  }

  /** The link with the key text escaped as a URI component. */
  function EscapedLink(origin: string, pathname: string, noteId: string, keyString: string): string
    requires IsAscii(keyString)
  {
    Link(origin, pathname, noteId, EncodeComponent(keyString))
  }

  lemma {:induction false} DecodeEncodeComponent(s: string)
    requires IsAscii(s)
    ensures PercentDecode(EncodeComponent(s)) == s
    decreases |s|
  {
    if s != "" {
      var c := s[0];
      var rest := EncodeComponent(s[1..]);
      DecodeEncodeComponent(s[1..]);
      if Unreserved(c) {
        assert EncodeComponent(s) == [c] + rest;
        assert (([c] + rest)[1..]) == rest;
      } else {
        var hi, lo := c as int / 16, c as int % 16;
        var e := ['%', HexDigit(hi), HexDigit(lo)] + rest;
        assert EncodeComponent(s) == e;
        assert HexValue(HexDigit(hi)) == Some(hi);
        assert HexValue(HexDigit(lo)) == Some(lo);
        assert hi * 16 + lo == c as int;
        assert e[3..] == rest;
      }
    }
  }

  /** With the key escaped, the viewer reads back every ASCII key text,
      '+' included. */
  lemma ResolveEscapedLink(origin: string, pathname: string, noteId: string, keyString: string)
    requires '#' !in origin + pathname
    requires ValidNoteId(noteId)
    requires IsAscii(keyString)
    ensures Resolve(EscapedLink(origin, pathname, noteId, keyString))
            == ViewRoute(noteId, [("k", keyString)])
  {
    var escaped := EncodeComponent(keyString);
    ResolveLink(origin, pathname, noteId, escaped);
    assert PlusToSpace(escaped) == escaped;
    DecodeEncodeComponent(keyString);
  }
}
