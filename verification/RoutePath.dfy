/**
 The path normalizer shared by the permission table and the body check, and
 proofs that it yields a normal form.
 */
module RoutePath {
  import opened Common
  import opened Strings

  function BeforeQuery(path: string): string {
    Split(path, '?')[0]
  }

  predicate SlashPair(p: string, i: int) {
    0 <= i < |p| - 1 && p[i] == '/' && p[i + 1] == '/'
  }

  predicate HasDoubleSlash(p: string) {
    exists i | 0 <= i < |p| :: SlashPair(p, i)
  }

  predicate IsDotSegment(part: string) {
    part == "." || part == ".."
  }

  predicate Refused(p: string) {
    || '%' in p || '#' in p || '\\' in p
    || HasDoubleSlash(p)
    || exists part :: part in Split(p, '/') && IsDotSegment(part)
  }

  function StripTrailingSlash(p: string): string {
    if p != "" && p[|p| - 1] == '/' then p[..|p| - 1] else p
  }

  function TrimLeadingSlashes(p: string): string {
    if p != "" && p[0] == '/' then TrimLeadingSlashes(p[1..]) else p
  }

  /** The route a path names, or nothing for encoded, empty and dot segments. */
  function PathParts(path: string): Option<seq<string>> {
    var p := BeforeQuery(path);
    if Refused(p) then None
    else Some(Split(TrimLeadingSlashes(StripTrailingSlash(p)), '/'))
  }

  /** An empty segment after the first comes from a doubled or a trailing slash. */
  lemma {:induction false} EmptyLaterSegment(p: string)
    requires "" in Split(p, '/')[1..]
    ensures p != "" && (p[|p| - 1] == '/' || HasDoubleSlash(p))
  {
    var t := p[1..];
    var rest := Split(t, '/');
    if "" in rest[1..] {
      EmptyLaterSegment(t);
      assert t == p[1..|p|];
      DoubleSlashInSlice(p, 1, |p|);
    } else if p[0] == '/' {
      assert Split(p, '/')[1..] == rest && rest[0] == "";
      assert t == "" || SlashPair(p, 0);
    }
  }

  lemma EmptySegment(p: string)
    requires p != "" && "" in Split(p, '/')
    ensures p[0] == '/' || p[|p| - 1] == '/' || HasDoubleSlash(p)
  {
    if p[0] != '/' {
      assert Split(p, '/')[0] != "";
      EmptyLaterSegment(p);
    }
  }

  lemma DoubleSlashInSlice(p: string, lo: nat, hi: nat)
    requires lo <= hi <= |p|
    ensures HasDoubleSlash(p[lo..hi]) ==> HasDoubleSlash(p)
  {
    if HasDoubleSlash(p[lo..hi]) {
      var slice := p[lo..hi];
      var i :| 0 <= i < |slice| && SlashPair(slice, i);
      assert SlashPair(p, lo + i);
    }
  }

  /** The stripped path of an accepted request. */
  lemma StrippedShape(p: string)
    requires !HasDoubleSlash(p)
    ensures var t := TrimLeadingSlashes(StripTrailingSlash(p));
            && !HasDoubleSlash(t)
            && (t != "" ==> t[0] != '/' && t[|t| - 1] != '/')
            && (p == t || p == "/" + t || p == t + "/" || p == "/" + t + "/")
  {
    var q := StripTrailingSlash(p);
    var t := TrimLeadingSlashes(q);
    assert q == p[0..|q|];
    DoubleSlashInSlice(p, 0, |q|);
    assert q != p && q != "" ==> !SlashPair(p, |q| - 1);
    assert |q| > 1 ==> !SlashPair(q, 0);
    if q != "" && q[0] == '/' {
      var u := q[1..];
      assert u == "" || u[0] == q[1];
      assert TrimLeadingSlashes(u) == u;
      assert t == q[1..|q|];
      assert q == "/" + t;
      DoubleSlashInSlice(q, 1, |q|);
    } else {
      assert t == q;
    }
    if p != q {
      assert p == q + "/";
    }
  }

  /** Every part of the normalized route was a segment of the request path. */
  lemma PartsAreSegments(p: string, t: string)
    requires p == t || p == "/" + t || p == t + "/" || p == "/" + t + "/"
    ensures forall part :: part in Split(t, '/') ==> part in Split(p, '/')
    ensures forall part :: part in Split(p, '/') ==> part in Split(t, '/') || part == ""
    ensures forall c :: c in p <==> c in t || (c == '/' && p != t) || (c == '/' && c in t)
  {
    SplitFirst("", '/', t);
    SplitFirst("", '/', t + "/");
    SplitLast(t, '/', "");
    SplitNone("", '/');
    assert "" + ['/'] + t == "/" + t;
    assert "" + ['/'] + (t + "/") == "/" + t + "/";
    assert t + ['/'] + "" == t + "/";
  }

  /** No part is a dot segment, and no part is empty unless the route is the root. */
  lemma PartsAreClean(path: string)
    requires PathParts(path).Some?
    ensures var parts := PathParts(path).value;
            && (forall part :: part in parts ==> !IsDotSegment(part) && '/' !in part && '?' !in part)
            && ((forall part :: part in parts ==> part != "") || parts == [""])
  {
    var p := BeforeQuery(path);
    var t := TrimLeadingSlashes(StripTrailingSlash(p));
    StrippedShape(p);
    if t != "" && "" in Split(t, '/') {
      EmptySegment(t);
      assert false;
    }
    PartsAreSegments(p, t);
    assert '?' !in p;
    forall part | part in Split(t, '/') ensures '?' !in part {
      PartCharsComeFrom(t, '/', part);
    }
  }

  lemma {:induction false} PartCharsComeFrom(s: string, c: char, part: string)
    requires part in Split(s, c)
    ensures forall x :: x in part ==> x in s
  {
    if s != "" {
      var rest := Split(s[1..], c);
      if s[0] == c {
        if part != "" {
          PartCharsComeFrom(s[1..], c, part);
        }
      } else if part == [s[0]] + rest[0] {
        PartCharsComeFrom(s[1..], c, rest[0]);
      } else {
        PartCharsComeFrom(s[1..], c, part);
      }
    }
  }

  /** The normal form: joining the parts and normalizing again changes nothing. */
  lemma NormalizeIsIdempotent(path: string)
    requires PathParts(path).Some?
    ensures PathParts(Join(PathParts(path).value, '/')) == PathParts(path)
  {
    var p := BeforeQuery(path);
    var t := TrimLeadingSlashes(StripTrailingSlash(p));
    StrippedShape(p);
    JoinSplit(t, '/');
    PartsAreSegments(p, t);
    assert '?' !in t;
    SplitNone(t, '?');
    assert BeforeQuery(t) == t;
    assert !Refused(t);
    assert StripTrailingSlash(t) == t && TrimLeadingSlashes(t) == t;
  }

  /** A query never changes the route. */
  lemma QueryIsIgnored(path: string, query: string)
    ensures PathParts(path + "?" + query) == PathParts(path)
  {
    FirstPieceUnaffected(path, '?', "?" + query);
    assert path + ("?" + query) == path + "?" + query;
  }

  lemma {:induction false} FirstPieceUnaffected(s: string, c: char, tail: string)
    requires c in s || (tail != "" && tail[0] == c)
    ensures Split(s + tail, c)[0] == Split(s, c)[0]
  {
    if s == "" {
      assert s + tail == tail;
    } else {
      assert (s + tail)[1..] == s[1..] + tail;
      if s[0] != c {
        FirstPieceUnaffected(s[1..], c, tail);
      }
    }
  }

  /** The route of a path without a query depends only on its stripped core. */
  lemma RouteOfDecorated(p: string, t: string)
    requires '?' !in p && '?' !in t
    requires p == t || p == "/" + t || p == t + "/" || p == "/" + t + "/"
    requires t != "" ==> t[0] != '/' && t[|t| - 1] != '/'
    requires p == "/" + t + "/" ==> t != ""
    ensures PathParts(p) == PathParts(t)
  {
    SplitNone(p, '?');
    SplitNone(t, '?');
    PartsAreSegments(p, t);
    assert HasDoubleSlash(p) <==> HasDoubleSlash(t) by {
      DecoratedDoubleSlash(p, t);
    }
    assert Refused(p) <==> Refused(t);
    assert TrimLeadingSlashes(StripTrailingSlash(p)) == TrimLeadingSlashes(StripTrailingSlash(t)) by {
      var q := StripTrailingSlash(p);
      assert q == t || q == "/" + t by {
        if p == t + "/" { assert p[..|p| - 1] == t; }
        if p == "/" + t + "/" { assert p[..|p| - 1] == "/" + t; }
        if p == "/" + t && t == "" { assert p[..|p| - 1] == t; }
      }
      if q == "/" + t {
        assert q[1..] == t;
      }
    }
  }

  lemma DecoratedDoubleSlash(p: string, t: string)
    requires p == t || p == "/" + t || p == t + "/" || p == "/" + t + "/"
    requires t != "" ==> t[0] != '/' && t[|t| - 1] != '/'
    requires p == "/" + t + "/" ==> t != ""
    ensures HasDoubleSlash(p) <==> HasDoubleSlash(t)
  {
    var lead := if p == t || p == t + "/" then 0 else 1;
    assert p[lead..lead + |t|] == t;
    DoubleSlashInSlice(p, lead, lead + |t|);
    if HasDoubleSlash(p) {
      var i :| 0 <= i < |p| && SlashPair(p, i);
      assert SlashPair(t, i - lead);
    }
  }

  /**
   Adding one leading slash, or one trailing slash, to a path that has none at that
   end does not change its route, with or without a query.
   */
  lemma SlashesAreOptional(p: string)
    ensures (p == "" || p[0] != '/') ==> PathParts("/" + p) == PathParts(p)
    ensures (p == "" || p[|p| - 1] != '/') ==> PathParts(p + "/") == PathParts(p)
  {
    if '?' in p {
      FirstPieceUnaffected(p, '?', "/");
      var q := BeforeQuery(p);
      QueryFree(p);
      QueryFree("/" + p);
      assert ("/" + p)[1..] == p;
      assert BeforeQuery("/" + p) == "/" + q;
      SlashesWithoutQuery(q);
    } else {
      SlashesWithoutQuery(p);
    }
  }

  /** The route is that of the part before the query, which starts like the path itself. */
  lemma QueryFree(p: string)
    ensures '?' !in BeforeQuery(p) && PathParts(BeforeQuery(p)) == PathParts(p)
    ensures BeforeQuery(p) != "" ==> p != "" && BeforeQuery(p)[0] == p[0]
  {
    SplitNone(BeforeQuery(p), '?');
  }

  lemma SlashesWithoutQuery(p: string)
    requires '?' !in p
    ensures (p == "" || p[0] != '/') ==> PathParts("/" + p) == PathParts(p)
    ensures (p == "" || p[|p| - 1] != '/') ==> PathParts(p + "/") == PathParts(p)
  {
    if p == "" {
      RouteOfDecorated("/", "");
      assert p + "/" == "/" == "/" + p;
    } else {
      var lead, trail := p[0] == '/', p[|p| - 1] == '/';
      if !lead {
        var t := if trail then p[..|p| - 1] else p;
        if t[|t| - 1] == '/' {
          assert HasDoubleSlash(p) by { assert SlashPair(p, |p| - 2); }
          assert HasDoubleSlash("/" + p) by { assert SlashPair("/" + p, |p| - 1); }
          SplitNone(p, '?');
          SplitNone("/" + p, '?');
        } else {
          assert trail ==> p == t + "/" && "/" + p == "/" + t + "/";
          RouteOfDecorated(p, t);
          RouteOfDecorated("/" + p, t);
        }
      }
      if !trail {
        var t := if lead then p[1..] else p;
        if t[0] == '/' {
          assert HasDoubleSlash(p) by { assert SlashPair(p, 0); }
          assert HasDoubleSlash(p + "/") by { assert SlashPair(p + "/", 0); }
          SplitNone(p, '?');
          SplitNone(p + "/", '?');
        } else {
          assert lead ==> p == "/" + t && p + "/" == "/" + t + "/";
          RouteOfDecorated(p, t);
          RouteOfDecorated(p + "/", t);
        }
      }
    }
  }

  // ----- what the route is, said without the normalizer -----

  /** The path `q`, query apart, is refused: an escape, a doubled slash, or a dot segment. */
  ghost predicate Unroutable(q: string) {
    || '%' in q || '#' in q || '\\' in q
    || (exists before: string, after: string :: q == before + "//" + after)
    || Segment(q, '/', ".") || Segment(q, '/', "..")
  }

  /** `core` is `q` without one leading and one trailing slash, as far as it has them. */
  predicate StrippedTo(q: string, core: string) {
    && (q == core || q == "/" + core || q == core + "/" || q == "/" + core + "/")
    && (core != "" ==> core[0] != '/' && core[|core| - 1] != '/')
  }

  /** `q` is the path up to its query. */
  ghost predicate WithoutQuery(path: string, q: string) {
    '?' !in q && (path == q || exists query: string :: path == q + "?" + query)
  }

  /** The path names the route `parts`: its stripped, query-free text is the parts joined by slashes. */
  ghost predicate NamesRoute(path: string, parts: seq<string>) {
    && parts != [] && (forall part :: part in parts ==> '/' !in part)
    && exists q: string :: WithoutQuery(path, q) && !Unroutable(q) && StrippedTo(q, Join(parts, '/'))
  }

  /** The normalizer answers exactly the route the path names, and nothing exactly when it names none. */
  lemma RouteIff(path: string, parts: seq<string>)
    ensures PathParts(path) == Some(parts) <==> NamesRoute(path, parts)
  {
    if PathParts(path) == Some(parts) {
      RouteIsNamed(path, parts);
    }
    if NamesRoute(path, parts) {
      var q: string :| WithoutQuery(path, q) && !Unroutable(q) && StrippedTo(q, Join(parts, '/'));
      QueryDropped(path, q);
      NamedIsRoute(q, parts);
    }
  }

  /** Refusal, for every path: exactly when its query-free text is unroutable. */
  lemma RefusedIff(path: string, q: string)
    requires WithoutQuery(path, q)
    ensures PathParts(path).None? <==> Unroutable(q)
  {
    QueryDropped(path, q);
    SplitNone(q, '?');
    RefusedIsUnroutable(q);
  }

  lemma QueryDropped(path: string, q: string)
    requires WithoutQuery(path, q)
    ensures PathParts(path) == PathParts(q) && BeforeQuery(q) == q
  {
    SplitNone(q, '?');
    if path != q {
      var query :| path == q + "?" + query;
      QueryIsIgnored(q, query);
    }
  }

  lemma RefusedIsUnroutable(q: string)
    ensures Refused(q) <==> Unroutable(q)
  {
    DoubleSlashIff(q);
    SplitIffSegment(q, '/', ".");
    SplitIffSegment(q, '/', "..");
  }

  lemma DoubleSlashIff(q: string)
    ensures HasDoubleSlash(q) <==> exists before: string, after: string :: q == before + "//" + after
  {
    if HasDoubleSlash(q) {
      var i :| 0 <= i < |q| && SlashPair(q, i);
      assert q == q[..i] + "//" + q[i + 2..];
    }
    if before: string, after: string :| q == before + "//" + after {
      assert SlashPair(q, |before|);
    }
  }

  lemma RouteIsNamed(path: string, parts: seq<string>)
    requires PathParts(path) == Some(parts)
    ensures NamesRoute(path, parts)
  {
    var q := BeforeQuery(path);
    BeforeQueryIsPrefix(path);
    RefusedIsUnroutable(q);
    StrippedShape(q);
    JoinSplit(TrimLeadingSlashes(StripTrailingSlash(q)), '/');
  }

  lemma BeforeQueryIsPrefix(path: string)
    ensures WithoutQuery(path, BeforeQuery(path))
  {
    JoinSplit(path, '?');
    var pieces := Split(path, '?');
    if |pieces| > 1 {
      assert path == pieces[0] + "?" + Join(pieces[1..], '?');
    }
  }

  lemma NamedIsRoute(q: string, parts: seq<string>)
    requires parts != [] && forall part :: part in parts ==> '/' !in part
    requires '?' !in q && !Unroutable(q) && StrippedTo(q, Join(parts, '/'))
    ensures PathParts(q) == Some(parts)
  {
    var core := Join(parts, '/');
    RefusedIsUnroutable(q);
    SplitNone(q, '?');
    StrippedShape(q);
    SameCore(q, core, TrimLeadingSlashes(StripTrailingSlash(q)));
    SplitJoin(parts, '/');
  }

  /** Without a doubled slash there is one way to strip. */
  lemma SameCore(q: string, s: string, t: string)
    requires !HasDoubleSlash(q) && StrippedTo(q, s) && StrippedTo(q, t)
    ensures s == t
  {
    CoreIsSlice(q, s);
    CoreIsSlice(q, t);
  }

  function CoreStart(q: string): nat {
    if q != "" && q[0] == '/' then 1 else 0
  }

  function CoreEnd(q: string): nat {
    if |q| > CoreStart(q) && q[|q| - 1] == '/' then |q| - 1 else |q|
  }

  lemma CoreIsSlice(q: string, s: string)
    requires !HasDoubleSlash(q) && StrippedTo(q, s)
    ensures CoreStart(q) <= CoreEnd(q) <= |q| && s == q[CoreStart(q)..CoreEnd(q)]
  {
    if s == "" {
      assert q == "//" ==> SlashPair(q, 0);
    } else if q == s {
      assert s == q[0..|q|];
    } else if q == "/" + s {
      assert q[|q| - 1] == s[|s| - 1];
    } else if q == s + "/" {
      assert q[0] == s[0];
    } else {
      assert q[0] == '/' && q[|q| - 1] == '/';
    }
  }
}
