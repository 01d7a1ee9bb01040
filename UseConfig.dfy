/** The configuration string logic: the route whitelist read from a
    comma-separated query value, and the InfoPoint location with its
    default and its trailing slash. */
module UseConfig {
  import opened Common

  // ---------------------------------------------------------------------
  // The route whitelist

  /** `s.split(sep)`: the pieces between separators, at least one. */
  function Split(s: string, sep: char): (ps: seq<string>)
    ensures |ps| >= 1
    ensures forall i :: 0 <= i < |ps| ==> sep !in ps[i]
  {
    if s == [] then [""]
    else
      var rest := Split(s[1..], sep);
      if s[0] == sep then [""] + rest
      else
        assert forall i :: 1 <= i < |rest| ==> rest[1..][i - 1] == rest[i];
        [[s[0]] + rest[0]] + rest[1..]
  }

  /** `ps.join(sep)` for a non-empty list. */
  function JoinWith(ps: seq<string>, sep: char): string
    requires |ps| >= 1
  {
    if |ps| == 1 then ps[0] else ps[0] + [sep] + JoinWith(ps[1..], sep)
  }

  /** Joining the pieces gives back the string. */
  lemma {:induction false} JoinSplit(s: string, sep: char)
    ensures JoinWith(Split(s, sep), sep) == s
  {
    if s != [] {
      var rest := Split(s[1..], sep);
      JoinSplit(s[1..], sep);
      if s[0] == sep {
        assert ([""] + rest)[1..] == rest;
      } else {
        var ps := [[s[0]] + rest[0]] + rest[1..];
        assert ps[1..] == rest[1..];
        assert s == [s[0]] + s[1..];
      }
    }
  }

  /** A piece without separators splits to itself. */
  lemma {:induction false} SplitPiece(p: string, sep: char)
    requires sep !in p
    ensures Split(p, sep) == [p]
  {
    if p != [] {
      SplitPiece(p[1..], sep);
      assert p == [p[0]] + p[1..];
    }
  }

  /** A piece followed by a separator splits off as the first piece. */
  lemma {:induction false} SplitAfterPiece(p: string, sep: char, t: string)
    requires sep !in p
    ensures Split(p + [sep] + t, sep) == [p] + Split(t, sep)
  {
    var s := p + [sep] + t;
    if p == [] {
      assert s[1..] == t;
    } else {
      assert s[1..] == p[1..] + [sep] + t;
      SplitAfterPiece(p[1..], sep, t);
      assert [p[0]] + p[1..] == p;
    }
  }

  /** Splitting the joined pieces gives back the pieces. */
  lemma {:induction false} SplitJoin(ps: seq<string>, sep: char)
    requires |ps| >= 1
    requires forall i :: 0 <= i < |ps| ==> sep !in ps[i]
    ensures Split(JoinWith(ps, sep), sep) == ps
  {
    if |ps| == 1 {
      SplitPiece(ps[0], sep);
    } else {
      SplitJoin(ps[1..], sep);
      SplitAfterPiece(ps[0], sep, JoinWith(ps[1..], sep));
      assert [ps[0]] + ps[1..] == ps;
    }
  }

  predicate NonBlank(p: string)
  {
    |p| > 0
  }

  /** `.filter((route) => !!(route))`: the non-empty pieces, in order. */
  function DropBlank(ps: seq<string>): (r: seq<string>)
    ensures forall i :: 0 <= i < |r| ==> NonBlank(r[i]) && r[i] in ps
    ensures forall i :: 0 <= i < |ps| && NonBlank(ps[i]) ==> ps[i] in r
    ensures Subsequence(r, ps)
    ensures KeptCounts(r, ps, NonBlank)
  {
    if ps == [] then []
    else
      var rest := DropBlank(ps[1..]);
      KeepCons(ps[0], ps[1..], rest, NonBlank);
      assert [ps[0]] + ps[1..] == ps;
      if NonBlank(ps[0]) then [ps[0]] + rest else rest
  }

  lemma {:induction false} DropBlankKeepsAll(ps: seq<string>)
    requires forall i :: 0 <= i < |ps| ==> ps[i] != ""
    ensures DropBlank(ps) == ps
  {
    if ps != [] {
      DropBlankKeepsAll(ps[1..]);
    }
  }

  /** `parseRoutes`: absent gives `null`; present gives the non-empty
      comma-separated pieces, so an empty value is the empty whitelist. */
  function ParseRoutes(arg: Option<string>): (r: Option<seq<string>>)
    ensures r.None? <==> arg.None?
    ensures r.Some? ==> forall i :: 0 <= i < |r.value| ==> |r.value[i]| > 0 && ',' !in r.value[i]
  {
    if arg.None? then None else Some(DropBlank(Split(arg.value, ',')))
  }

  /** Absent and empty are told apart, and a present value yields pieces
      of it: non-empty, without commas, in order, none of them skipped. */
  lemma ParseRoutesShape(arg: Option<string>)
    ensures ParseRoutes(arg).None? <==> arg.None?
    ensures arg == Some("") ==> ParseRoutes(arg) == Some([])
    ensures arg.Some? ==> var r := ParseRoutes(arg).value; var ps := Split(arg.value, ',');
      && (forall i :: 0 <= i < |r| ==> r[i] != "" && ',' !in r[i])
      && Subsequence(r, ps)
      && (forall i :: 0 <= i < |ps| && ps[i] != "" ==> ps[i] in r)
      && KeptCounts(r, ps, NonBlank)
      && JoinWith(ps, ',') == arg.value
  {
    if arg.Some? {
      var r := ParseRoutes(arg).value;
      var ps := Split(arg.value, ',');
      forall i | 0 <= i < |r| ensures ',' !in r[i] {
        var q :| 0 <= q < |ps| && ps[q] == r[i];
      }
      JoinSplit(arg.value, ',');
    }
  }

  /** The whitelist as a query value: its entries joined by commas. */
  function RoutesValue(ws: seq<string>): string
  {
    if ws == [] then "" else JoinWith(ws, ',')
  }

  /** A whitelist of non-empty, comma-free abbreviations survives being
      written as a query value and parsed back. */
  lemma ParseRoutesRoundTrip(ws: seq<string>)
    requires forall i :: 0 <= i < |ws| ==> ws[i] != "" && ',' !in ws[i]
    ensures ParseRoutes(Some(RoutesValue(ws))) == Some(ws)
  {
    if ws != [] {
      SplitJoin(ws, ',');
      DropBlankKeepsAll(ws);
    }
  }

  // ---------------------------------------------------------------------
  // The InfoPoint location

  const DefaultInfoPoint: string := "https://bustracker.pvta.com/InfoPoint/rest/"

  /** `arg ??= default`. */
  function InfoPointArg(arg: Option<string>): (r: string)
    ensures arg.Some? ==> r == arg.value
    ensures arg.None? ==> r == DefaultInfoPoint
  {
    if arg.Some? then arg.value else DefaultInfoPoint
  }

  predicate EndsWithSlash(p: string)
  {
    |p| > 0 && p[|p| - 1] == '/'
  }

  /** The pathname after the trailing-slash rule. */
  function WithTrailingSlash(p: string): (r: string)
    ensures EndsWithSlash(r)
  {
    if EndsWithSlash(p) then p else p + "/"
  }

  /** The rule always leaves a trailing slash, adds at most one character,
      keeps the pathname as a prefix, changes nothing when the slash is
      already there, and so is idempotent. */
  lemma TrailingSlashRule(p: string)
    ensures EndsWithSlash(WithTrailingSlash(p))
    ensures |WithTrailingSlash(p)| <= |p| + 1 && WithTrailingSlash(p)[..|p|] == p
    ensures EndsWithSlash(p) <==> WithTrailingSlash(p) == p
    ensures WithTrailingSlash(WithTrailingSlash(p)) == WithTrailingSlash(p)
  {
  }

  /** A parsed URL; only the pathname is modelled. */
  class Url {
    var pathname: string

    constructor (pathname: string)
      ensures this.pathname == pathname
    {
      this.pathname := pathname;
    }
  }

  /** `parseInfoPoint`. `parse` stands for `new URL(...)`: the pathname of
      the parsed location, `None` when parsing throws. A failed parse gives
      `null`; otherwise the URL's pathname gets the trailing-slash rule in
      place. */
  method ParseInfoPoint(arg: Option<string>, parse: string -> Option<string>) returns (url: Url?)
    ensures url == null <==> parse(InfoPointArg(arg)).None?
    ensures url != null ==> fresh(url) && url.pathname == WithTrailingSlash(parse(InfoPointArg(arg)).value)
  {
    var parsed := parse(InfoPointArg(arg));
    if parsed.None? {
      return null;
    }
    url := new Url(parsed.value);
    if !EndsWithSlash(url.pathname) {
      url.pathname := url.pathname + "/";
    }
  }
}
