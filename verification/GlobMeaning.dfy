/** The declared meaning of a pattern with braces (gssftp/ftp/glob.c): the names matched by one of the
    brace-free patterns it expands to. */
module GlobMeaning {
  import opened Glob

  predicate BraceFree(p: Pattern) {
    forall i :: 0 <= i < |p| ==> !p[i].Braces?
  }

  /** All ways of choosing one alternative from every group, in groups within groups too. */
  ghost function Expansions(p: Pattern): set<Pattern>
    decreases p
  {
    if p == [] then {[]}
    else
      var heads, tails := ItemExpansions(p[0]), Expansions(p[1..]);
      set h, t | h in heads && t in tails :: h + t
  }

  ghost function ItemExpansions(it: Item): set<Pattern>
    decreases it
  {
    if it.Braces? then AltExpansions(it.alts) else {[it]}
  }

  ghost function AltExpansions(alts: seq<Alternative>): set<Pattern>
    decreases alts
  {
    if alts == [] then {} else OneExpansions(alts[0]) + AltExpansions(alts[1..])
  }

  ghost function OneExpansions(a: Alternative): set<Pattern>
    decreases a
  {
    Expansions(a.items)
  }

  /** Whether one item of a brace-free pattern matches a piece of a name. */
  ghost predicate ItemMatches(it: Item, s: string) {
    match it
    case Lit(c) => s == [c]
    case One => |s| == 1
    case Many => true
    case Class(ms) => |s| == 1 && InClass(s[0], ms)
    case Braces(_) => false
  }

  /** A brace-free pattern matches a name that can be cut into pieces, one for each item in order. */
  ghost predicate Matches(p: Pattern, s: string) {
    exists pieces: seq<string> :: Cut(p, s, pieces)
  }

  ghost predicate Cut(p: Pattern, s: string, pieces: seq<string>) {
    |pieces| == |p| && Joined(pieces) == s && forall i :: 0 <= i < |p| ==> ItemMatches(p[i], pieces[i])
  }

  function Joined(pieces: seq<string>): string {
    if pieces == [] then "" else pieces[0] + Joined(pieces[1..])
  }

  ghost predicate Meant(p: Pattern, s: string) {
    exists e :: e in Expansions(p) && Matches(e, s)
  }

  // ---------- the expansions are brace-free, and they compose ----------

  lemma {:induction false} ExpansionsBraceFree(p: Pattern, e: Pattern)
    requires e in Expansions(p)
    ensures BraceFree(e)
    decreases p
  {
    if p != [] {
      var h, t :| h in ItemExpansions(p[0]) && t in Expansions(p[1..]) && e == h + t;
      ItemExpansionsBraceFree(p[0], h);
      ExpansionsBraceFree(p[1..], t);
    }
  }

  lemma {:induction false} ItemExpansionsBraceFree(it: Item, e: Pattern)
    requires e in ItemExpansions(it)
    ensures BraceFree(e)
    decreases it
  {
    if it.Braces? {
      AltExpansionsBraceFree(it.alts, e);
    }
  }

  lemma {:induction false} AltExpansionsBraceFree(alts: seq<Alternative>, e: Pattern)
    requires e in AltExpansions(alts)
    ensures BraceFree(e)
    decreases alts
  {
    if e in OneExpansions(alts[0]) {
      OneExpansionsBraceFree(alts[0], e);
    } else {
      AltExpansionsBraceFree(alts[1..], e);
    }
  }

  lemma {:induction false} OneExpansionsBraceFree(a: Alternative, e: Pattern)
    requires e in OneExpansions(a)
    ensures BraceFree(e)
    decreases a
  {
    ExpansionsBraceFree(a.items, e);
  }

  lemma {:induction false} ExpansionsJoin(a: Pattern, b: Pattern, x: Pattern, y: Pattern)
    requires x in Expansions(a) && y in Expansions(b)
    ensures x + y in Expansions(a + b)
    decreases a
  {
    hide ItemExpansions;
    if a == [] {
      assert a + b == b && [] + y == y;
    } else {
      assert (a + b)[0] == a[0] && (a + b)[1..] == a[1..] + b;
      var h, t :| h in ItemExpansions(a[0]) && t in Expansions(a[1..]) && x == h + t;
      ExpansionsJoin(a[1..], b, t, y);
      assert x + y == h + (t + y);
    }
  }

  lemma {:induction false} ExpansionsSplit(a: Pattern, b: Pattern, e: Pattern) returns (x: Pattern, y: Pattern)
    requires e in Expansions(a + b)
    ensures x in Expansions(a) && y in Expansions(b) && e == x + y
    decreases a
  {
    hide ItemExpansions;
    if a == [] {
      assert a + b == b;
      x, y := [], e;
    } else {
      assert (a + b)[0] == a[0] && (a + b)[1..] == a[1..] + b;
      var h, t :| h in ItemExpansions(a[0]) && t in Expansions(a[1..] + b) && e == h + t;
      x, y := ExpansionsSplit(a[1..], b, t);
      assert e == (h + x) + y;
      x := h + x;
    }
  }

  lemma {:induction false} AltExpansionsAny(alts: seq<Alternative>, e: Pattern)
    ensures e in AltExpansions(alts) <==> exists i :: 0 <= i < |alts| && e in Expansions(alts[i].items)
    decreases alts
  {
    if alts != [] {
      AltExpansionsAny(alts[1..], e);
      if e in AltExpansions(alts[1..]) {
        var i :| 0 <= i < |alts[1..]| && e in Expansions(alts[1..][i].items);
        assert alts[i + 1] == alts[1..][i];
      }
      if exists i :: 0 <= i < |alts| && e in Expansions(alts[i].items) {
        var i :| 0 <= i < |alts| && e in Expansions(alts[i].items);
        if i > 0 {
          assert alts[1..][i - 1] == alts[i];
        }
      }
    }
  }

  // ---------- pieces ----------

  lemma MatchesEmpty(s: string)
    ensures Matches([], s) <==> s == ""
  {
    if s == "" {
      var none: seq<string> := [];
      assert Cut([], s, none);
    }
  }

  lemma MatchesCons(it: Item, p: Pattern, s: string)
    ensures Matches([it] + p, s) <==> exists k :: 0 <= k <= |s| && ItemMatches(it, s[..k]) && Matches(p, s[k..])
  {
    hide ItemMatches;
    if Matches([it] + p, s) {
      var pieces: seq<string> :| Cut([it] + p, s, pieces);
      CutHead(it, p, s, pieces);
    }
    if exists k :: 0 <= k <= |s| && ItemMatches(it, s[..k]) && Matches(p, s[k..]) {
      var k :| 0 <= k <= |s| && ItemMatches(it, s[..k]) && Matches(p, s[k..]);
      var rest: seq<string> :| Cut(p, s[k..], rest);
      var pieces := [s[..k]] + rest;
      assert pieces[1..] == rest && Joined(pieces) == s;
      assert Cut([it] + p, s, pieces);
    }
  }

  lemma CutHead(it: Item, p: Pattern, s: string, pieces: seq<string>)
    requires Cut([it] + p, s, pieces)
    ensures var k := |pieces[0]|; k <= |s| && ItemMatches(it, s[..k]) && Cut(p, s[k..], pieces[1..])
  {
    hide ItemMatches;
    var k := |pieces[0]|;
    assert s[..k] == pieces[0] && s[k..] == Joined(pieces[1..]);
    assert ItemMatches(([it] + p)[0], pieces[0]);
    forall i | 0 <= i < |p|
      ensures ItemMatches(p[i], pieces[1..][i])
    {
      assert ItemMatches(([it] + p)[i + 1], pieces[i + 1]);
    }
  }

  // ---------- the matcher's meaning is the declared one ----------

  lemma MeantEmpty(s: string)
    ensures Meant([], s) <==> s == ""
  {
    MatchesEmpty(s);
    assert Expansions([]) == {[]};
  }

  /** An item that is no group takes the first piece of the name. */
  lemma MeantItem(p: Pattern, s: string)
    requires p != [] && !p[0].Braces?
    ensures Meant(p, s) <==> exists k :: 0 <= k <= |s| && ItemMatches(p[0], s[..k]) && Meant(p[1..], s[k..])
  {
    hide Matches, ItemMatches;
    if Meant(p, s) {
      var e :| e in Expansions(p) && Matches(e, s);
      var h, t :| h in ItemExpansions(p[0]) && t in Expansions(p[1..]) && e == h + t;
      MatchesCons(p[0], t, s);
    }
    if exists k :: 0 <= k <= |s| && ItemMatches(p[0], s[..k]) && Meant(p[1..], s[k..]) {
      var k :| 0 <= k <= |s| && ItemMatches(p[0], s[..k]) && Meant(p[1..], s[k..]);
      var t :| t in Expansions(p[1..]) && Matches(t, s[k..]);
      assert [p[0]] in ItemExpansions(p[0]);
      assert [p[0]] + t in Expansions(p);
      MatchesCons(p[0], t, s);
    }
  }

  /** A group means any of its alternatives in its place. */
  lemma MeantBraces(p: Pattern, s: string)
    requires p != [] && p[0].Braces?
    ensures Meant(p, s) <==> exists i :: 0 <= i < |p[0].alts| && Meant(p[0].alts[i].items + p[1..], s)
  {
    hide Matches;
    var alts, rest := p[0].alts, p[1..];
    if Meant(p, s) {
      var e :| e in Expansions(p) && Matches(e, s);
      var h, t :| h in ItemExpansions(p[0]) && t in Expansions(rest) && e == h + t;
      AltExpansionsAny(alts, h);
      var i :| 0 <= i < |alts| && h in Expansions(alts[i].items);
      ExpansionsJoin(alts[i].items, rest, h, t);
    }
    if exists i :: 0 <= i < |alts| && Meant(alts[i].items + rest, s) {
      var i :| 0 <= i < |alts| && Meant(alts[i].items + rest, s);
      var e :| e in Expansions(alts[i].items + rest) && Matches(e, s);
      var x, y := ExpansionsSplit(alts[i].items, rest, e);
      AltExpansionsAny(alts, x);
      assert e in Expansions(p);
    }
  }

  /** `amatch` accepts a name exactly when one of the pattern's expansions matches it. */
  lemma {:induction false} AcceptsIsMeant(p: Pattern, s: string)
    ensures Accepts(p, s) <==> Meant(p, s)
    decreases |Show(p)|, |p|
  {
    hide Meant;
    if p == [] {
      MeantEmpty(s);
    } else if p[0].Braces? {
      MeantBraces(p, s);
      var alts := p[0].alts;
      forall i | 0 <= i < |alts|
        ensures Accepts(alts[i].items + p[1..], s) <==> Meant(alts[i].items + p[1..], s)
      {
        Chosen(p, i);
        AcceptsIsMeant(alts[i].items + p[1..], s);
      }
    } else {
      MeantItem(p, s);
      forall k | 0 <= k <= |s|
        ensures Accepts(p[1..], s[k..]) <==> Meant(p[1..], s[k..])
      {
        AcceptsIsMeant(p[1..], s[k..]);
      }
      if s != "" {
        assert s[..1] == [s[0]];
      }
      if !p[0].Many? && Meant(p, s) {
        var k :| 0 <= k <= |s| && ItemMatches(p[0], s[..k]) && Meant(p[1..], s[k..]);
        assert k == 1;
      }
    }
  }

  /** The matcher against the declared meaning, for every pattern of the supported form and every name. */
  method MatchName(s: string, p: string, ghost pat: Pattern) returns (matched: bool)
    requires Good(pat, false) && p == Show(pat) && GoodName(s)
    ensures matched <==> (At(s, 0) == '.' ==> At(p, 0) == '.') && exists e :: e in Expansions(pat) && Matches(e, s)
  {
    AcceptsIsMeant(pat, s);
    matched := Match(s, p, pat);
  }
}
