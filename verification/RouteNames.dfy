/** Exported route names (apps/authz/quota_keys.py). */
module RouteNames {
  import opened Common

  const PREFIX := "grantdeck-p"

  /** str.lower() and the first eight characters of the SHA-256 hex digest, neither of them modelled. */
  datatype Naming = Naming(lower: string -> string, digest: string -> string)

  predicate Plain(c: char) { 'a' <= c <= 'z' || IsDigit(c) }

  predicate IsHex(c: char) { 'a' <= c <= 'f' || IsDigit(c) }

  /** All that is assumed of them: digests are eight hex characters, and text over [a-z0-9-] is lower case. */
  ghost predicate Usable(n: Naming) {
    && (forall m :: DigestText(n.digest(m)))
    && (forall w :: LabelText(w) ==> n.lower(w) == w)
  }

  /** re.sub('[^a-z0-9]+', '-', s); gap says that the run s continues has already been replaced. */
  function Collapse(s: string, gap: bool): string {
    if s == "" then ""
    else if Plain(s[0]) then [s[0]] + Collapse(s[1..], false)
    else (if gap then "" else "-") + Collapse(s[1..], true)
  }

  /** s.strip('-') */
  function StripHyphens(s: string): string
    decreases |s|
  {
    if s != "" && s[0] == '-' then StripHyphens(s[1..])
    else if s != "" && s[|s| - 1] == '-' then StripHyphens(s[..|s| - 1])
    else s
  }

  function Truncate(s: string): string { if |s| <= 24 then s else s[..24] }

  function Slug(lowered: string): string {
    var slug := StripHyphens(Truncate(StripHyphens(Collapse(lowered, false))));
    if slug == "" then "model" else slug
  }

  function RouteName(n: Naming, pk: nat, model: string): string {
    Join(pk, Slug(n.lower(model)), n.digest(model))
  }

  function Join(pk: nat, slug: string, digest: string): string {
    PREFIX + (Dec(pk) + "-" + (slug + "-" + digest))
  }

  // ---------- the shape of a slug ----------

  /** Only [a-z0-9-], and no two hyphens in a row. */
  ghost predicate Tidy(s: string) {
    && (forall i :: 0 <= i < |s| ==> Plain(s[i]) || s[i] == '-')
    && (forall i :: 0 <= i < |s| - 1 ==> !(s[i] == '-' && s[i + 1] == '-'))
  }

  ghost predicate SlugText(s: string) {
    Tidy(s) && 1 <= |s| <= 24 && s[0] != '-' && s[|s| - 1] != '-'
  }

  lemma {:induction false} CollapseIsTidy(s: string, gap: bool)
    ensures Tidy(Collapse(s, gap))
    ensures gap && Collapse(s, gap) != "" ==> Collapse(s, gap)[0] != '-'
  {
    if s == "" {
    } else {
      CollapseIsTidy(s[1..], !Plain(s[0]));
    }
  }

  lemma {:induction false} StripKeepsTidy(s: string)
    requires Tidy(s)
    ensures var t := StripHyphens(s);
            Tidy(t) && |t| <= |s| && (t != "" ==> t[0] != '-' && t[|t| - 1] != '-')
    decreases |s|
  {
    if s == "" {
    } else if s[0] == '-' {
      StripKeepsTidy(s[1..]);
    } else if s[|s| - 1] == '-' {
      StripKeepsTidy(s[..|s| - 1]);
    }
  }

  lemma SlugIsSlugText(lowered: string)
    ensures SlugText(Slug(lowered))
  {
    var c := Collapse(lowered, false);
    CollapseIsTidy(lowered, false);
    StripKeepsTidy(c);
    StripKeepsTidy(Truncate(StripHyphens(c)));
  }

  lemma {:induction false} CollapseFixesTidy(s: string, gap: bool)
    requires Tidy(s) && (gap && s != "" ==> s[0] != '-')
    ensures Collapse(s, gap) == s
  {
    if s == "" {
    } else {
      assert s == [s[0]] + s[1..];
      var t := s[1..];
      forall i | 0 <= i < |t| - 1 ensures !(t[i] == '-' && t[i + 1] == '-') {
        assert t[i] == s[i + 1] && t[i + 1] == s[i + 2];
      }
      CollapseFixesTidy(s[1..], !Plain(s[0]));
    }
  }

  /** The fixed points of slugging are exactly the slugs, so slugging a model name twice changes nothing. */
  lemma SlugFixedPoints(n: Naming, s: string)
    requires Usable(n)
    ensures Slug(n.lower(s)) == s <==> SlugText(s)
    ensures Slug(n.lower(Slug(n.lower(s)))) == Slug(n.lower(s))
  {
    SlugIsSlugText(n.lower(s));
    if SlugText(s) {
      assert LabelText(s);
      CollapseFixesTidy(s, false);
    }
    var slug := Slug(n.lower(s));
    assert LabelText(slug);
    CollapseFixesTidy(slug, false);
  }

  // ---------- what any text becomes ----------

  /** A character that is kept: a lower-case ASCII letter or a digit. */
  ghost predicate Kept(c: char) { 'a' <= c <= 'z' || '0' <= c <= '9' }

  ghost predicate Word(w: string) { w != "" && forall i :: 0 <= i < |w| ==> Kept(w[i]) }

  ghost predicate Gap(g: string) { forall i :: 0 <= i < |g| ==> !Kept(g[i]) }

  /** words and gaps make up a text; only the first gap may be empty. */
  ghost predicate Spelled(gaps: seq<string>, words: seq<string>) {
    && |gaps| == |words| && (forall i :: 0 <= i < |words| ==> Word(words[i]) && Gap(gaps[i]))
    && forall i :: 0 < i < |gaps| ==> gaps[i] != ""
  }

  /** The text of gaps and words, in turn. */
  ghost function Spread(gaps: seq<string>, words: seq<string>): string
    requires |gaps| == |words|
  {
    if words == [] then "" else gaps[0] + words[0] + Spread(gaps[1..], words[1..])
  }

  /** The words with single hyphens between them. */
  ghost function Hyphenated(words: seq<string>): string {
    if words == [] then "" else if |words| == 1 then words[0] else words[0] + "-" + Hyphenated(words[1..])
  }

  lemma {:induction false} CollapseWord(w: string, rest: string, gap: bool)
    requires Word(w)
    ensures Collapse(w + rest, gap) == w + Collapse(rest, false)
    decreases |w|
  {
    assert (w + rest)[0] == w[0] && (w + rest)[1..] == w[1..] + rest && w == [w[0]] + w[1..];
    if |w| == 1 {
      assert w[1..] + rest == rest;
    } else {
      CollapseWord(w[1..], rest, false);
    }
  }

  lemma {:induction false} CollapseGap(g: string, rest: string, gap: bool)
    requires Gap(g) && g != ""
    ensures Collapse(g + rest, gap) == (if gap then "" else "-") + Collapse(rest, true)
    decreases |g|
  {
    assert (g + rest)[0] == g[0] && (g + rest)[1..] == g[1..] + rest;
    if |g| == 1 {
      assert g[1..] + rest == rest;
    } else {
      CollapseGap(g[1..], rest, true);
    }
  }

  /** From the first word on: each later gap becomes one hyphen, and so does what follows the last word. */
  lemma {:induction false} CollapseSpread(gaps: seq<string>, words: seq<string>, tail: string)
    requires Spelled(gaps, words) && words != [] && Gap(tail)
    ensures Collapse(words[0] + Spread(gaps[1..], words[1..]) + tail, false) ==
            Hyphenated(words) + if tail == "" then "" else "-"
    decreases |words|
  {
    var rest := Spread(gaps[1..], words[1..]) + tail;
    assert words[0] + Spread(gaps[1..], words[1..]) + tail == words[0] + rest;
    CollapseWord(words[0], rest, false);
    if |words| == 1 {
      assert rest == tail;
      if tail != "" {
        assert tail + "" == tail;
        CollapseGap(tail, "", false);
      }
    } else {
      var g, v := gaps[1..], words[1..];
      assert Spelled(g, v);
      var next := v[0] + Spread(g[1..], v[1..]) + tail;
      assert rest == g[0] + next;
      CollapseGap(g[0], next, false);
      CollapseSpread(g, v, tail);
      StartsPlain(v[0], Spread(g[1..], v[1..]) + tail);
      assert next == v[0] + (Spread(g[1..], v[1..]) + tail);
      Join3(words[0], Hyphenated(v), if tail == "" then "" else "-");
    }
  }

  lemma Join3(w: string, h: string, t: string)
    ensures w + ("-" + (h + t)) == w + "-" + h + t
  {
  }

  /** After a gap a word collapses as it does at the start. */
  lemma StartsPlain(w: string, rest: string)
    requires Word(w)
    ensures Collapse(w + rest, true) == Collapse(w + rest, false)
  {
    CollapseWord(w, rest, true);
    CollapseWord(w, rest, false);
  }

  lemma {:induction false} HyphenatedEnds(words: seq<string>)
    requires words != [] && forall i :: 0 <= i < |words| ==> Word(words[i])
    ensures var h := Hyphenated(words);
            h != "" && Kept(h[0]) && Kept(h[|h| - 1])
  {
    if |words| == 1 {
      assert Word(words[0]);
    } else {
      assert Word(words[0]);
      assert forall i :: 0 <= i < |words[1..]| ==> Word(words[1..][i]);
      HyphenatedEnds(words[1..]);
    }
  }

  lemma StripAround(lead: string, h: string, trail: string)
    requires lead in {"", "-"} && trail in {"", "-"} && h != "" && h[0] != '-' && h[|h| - 1] != '-'
    ensures StripHyphens(lead + h + trail) == h
  {
    var s := lead + h + trail;
    assert StripHyphens(h) == h;
    assert trail == "" ==> h + trail == h;
    assert trail == "-" ==> (h + trail)[..|h + trail| - 1] == h;
    assert StripHyphens(h + trail) == h;
    assert lead == "" ==> s == h + trail;
    assert lead == "-" ==> s[1..] == h + trail;
  }

  lemma NoWords(tail: string)
    requires Gap(tail)
    ensures StripHyphens(Collapse(tail, false)) == ""
  {
    if tail != "" {
      assert tail + "" == tail;
      CollapseGap(tail, "", false);
      assert "-"[1..] == "";
    }
  }

  lemma FirstWordCollapses(gaps: seq<string>, words: seq<string>, tail: string, gap: bool)
    requires Spelled(gaps, words) && Gap(tail) && words != []
    ensures Collapse(words[0] + Spread(gaps[1..], words[1..]) + tail, gap) ==
            Hyphenated(words) + if tail == "" then "" else "-"
  {
    var first := words[0] + Spread(gaps[1..], words[1..]) + tail;
    CollapseSpread(gaps, words, tail);
    assert first == words[0] + (Spread(gaps[1..], words[1..]) + tail);
    if gap { StartsPlain(words[0], Spread(gaps[1..], words[1..]) + tail); }
  }

  lemma SpreadCollapses(gaps: seq<string>, words: seq<string>, tail: string)
    requires Spelled(gaps, words) && Gap(tail) && words != []
    ensures Collapse(Spread(gaps, words) + tail, false) ==
            (if gaps[0] == "" then "" else "-") + (Hyphenated(words) + if tail == "" then "" else "-")
  {
    var first := words[0] + Spread(gaps[1..], words[1..]) + tail;
    assert Spread(gaps, words) + tail == gaps[0] + first;
    if gaps[0] == "" {
      assert gaps[0] + first == first;
      FirstWordCollapses(gaps, words, tail, false);
    } else {
      CollapseGap(gaps[0], first, false);
      FirstWordCollapses(gaps, words, tail, true);
    }
  }

  /** Whatever surrounds and separates the words, they come out joined by single hyphens; a text without
      words comes out empty. */
  lemma WordsAreHyphenated(gaps: seq<string>, words: seq<string>, tail: string)
    requires Spelled(gaps, words) && Gap(tail)
    ensures StripHyphens(Collapse(Spread(gaps, words) + tail, false)) == Hyphenated(words)
  {
    if words == [] {
      assert Spread(gaps, words) + tail == tail;
      NoWords(tail);
    } else {
      SpreadCollapses(gaps, words, tail);
      HyphenatedEnds(words);
      var lead, trail := if gaps[0] == "" then "" else "-", if tail == "" then "" else "-";
      StripAround(lead, Hyphenated(words), trail);
      Regroup(lead, Hyphenated(words), trail);
    }
  }

  lemma Regroup(a: string, b: string, c: string)
    ensures a + (b + c) == a + b + c
  {
  }

  /** At most 24 characters, without a hyphen at the cut. */
  ghost function CutAt24(h: string): string {
    if |h| <= 24 then h else if h[23] == '-' then h[..23] else h[..24]
  }

  /** The slug of any text: its words joined by hyphens, cut to 24 characters, without a hyphen that the cut
      leaves at the end; "model" exactly for a text without words. */
  lemma SlugOfWords(gaps: seq<string>, words: seq<string>, tail: string)
    requires Spelled(gaps, words) && Gap(tail)
    ensures var h := Hyphenated(words);
            && (words == [] ==> Slug(Spread(gaps, words) + tail) == "model")
            && (words != [] ==> h != "" && Slug(Spread(gaps, words) + tail) == CutAt24(h))
  {
    WordsAreHyphenated(gaps, words, tail);
    var h := Hyphenated(words);
    if words == [] {
    } else {
      HyphenatedEnds(words);
      HyphenatedIsTidy(words);
      if |h| <= 24 {
        StripAround("", h, "");
        assert "" + h + "" == h;
      } else if h[23] == '-' {
        assert h[..24] == h[..23] + "-" && h[22] != '-' && h[..23][22] == h[22] && h[..23][0] == h[0];
        StripAround("", h[..23], "-");
        assert "" + h[..23] + "-" == h[..24];
      } else {
        assert h[..24][23] == h[23] && h[..24][0] == h[0];
        StripAround("", h[..24], "");
        assert "" + h[..24] + "" == h[..24];
      }
    }
  }

  lemma {:induction false} HyphenatedIsTidy(words: seq<string>)
    requires forall i :: 0 <= i < |words| ==> Word(words[i])
    ensures Tidy(Hyphenated(words))
  {
    if |words| <= 1 {
      if |words| == 1 { assert Word(words[0]); }
    } else {
      assert Word(words[0]);
      var rest := words[1..];
      assert forall i :: 0 <= i < |rest| ==> Word(rest[i]);
      HyphenatedIsTidy(rest);
      HyphenatedEnds(rest);
      var h := Hyphenated(rest);
      assert Hyphenated(words) == words[0] + "-" + h;
      TidyJoin(words[0], h);
    }
  }

  lemma TidyJoin(w: string, h: string)
    requires Word(w) && Tidy(h) && h != "" && h[0] != '-'
    ensures Tidy(w + "-" + h)
  {
    var s := w + "-" + h;
    forall i | 0 <= i < |s| ensures Plain(s[i]) || s[i] == '-' {
      if i > |w| { assert s[i] == h[i - |w| - 1]; }
    }
    forall i | 0 <= i < |s| - 1 ensures !(s[i] == '-' && s[i + 1] == '-') {
      if i > |w| { assert s[i] == h[i - |w| - 1] && s[i + 1] == h[i - |w|]; }
    }
  }

  /** Every text is made up of words and gaps in this way. */
  lemma {:induction false} TextIsSpelled(s: string) returns (gaps: seq<string>, words: seq<string>, tail: string)
    ensures Spelled(gaps, words) && Gap(tail) && s == Spread(gaps, words) + tail
  {
    if s == "" {
      gaps, words, tail := [], [], "";
    } else {
      var g, w, t := TextIsSpelled(s[1..]);
      assert s == [s[0]] + s[1..];
      tail := t;
      if Kept(s[0]) {
        if w != [] && g[0] == "" {
          gaps, words := g, [[s[0]] + w[0]] + w[1..];
          assert gaps[1..] == g[1..] && words[1..] == w[1..];
          assert Word(w[0]);
          assert Spread(g, w) == "" + w[0] + Spread(g[1..], w[1..]);
        } else {
          gaps, words := [""] + g, [[s[0]]] + w;
          assert gaps[1..] == g && words[1..] == w;
        }
      } else if w == [] {
        gaps, words, tail := [], [], [s[0]] + t;
      } else {
        gaps, words := [[s[0]] + g[0]] + g[1..], w;
        assert gaps[1..] == g[1..];
        assert Gap(g[0]);
      }
    }
  }

  /** The parts of a route name, in text. */
  lemma RouteNameSays(n: Naming, pk: nat, model: string)
    ensures RouteName(n, pk, model) == "grantdeck-p" + Dec(pk) + "-" + Slug(n.lower(model)) + "-" + n.digest(model)
  {
  }

  // ---------- the shape of a name ----------

  /** The label grammar of section 2.3.1 of RFC 1035, in lower case. */
  ghost predicate IsLabel(s: string) {
    && 1 <= |s| <= 63
    && 'a' <= s[0] <= 'z'
    && Plain(s[|s| - 1])
    && forall i :: 0 <= i < |s| ==> Plain(s[i]) || s[i] == '-'
  }

  ghost predicate DigestText(d: string) { |d| == 8 && forall i :: 0 <= i < 8 ==> IsHex(d[i]) }

  ghost predicate LabelText(s: string) { forall i :: 0 <= i < |s| ==> Plain(s[i]) || s[i] == '-' }

  lemma JoinIsLabel(pk: nat, slug: string, digest: string)
    requires SlugText(slug) && DigestText(digest)
    ensures |Join(pk, slug, digest)| <= 45 + |Dec(pk)|
    ensures |Dec(pk)| <= 18 ==> IsLabel(Join(pk, slug, digest))
  {
  }

  /** A name is at most 45 characters longer than its project number, so it is a label whenever that
      number has at most 18 digits. */
  lemma RouteNameIsLabel(n: Naming, pk: nat, model: string)
    requires Usable(n)
    ensures |RouteName(n, pk, model)| <= 45 + |Dec(pk)|
    ensures pk < 1_000_000_000_000_000_000 ==> IsLabel(RouteName(n, pk, model))
  {
    SlugIsSlugText(n.lower(model));
    EighteenDigits();
    if pk < Pow10(18) { DecLength(pk, 18); }
    JoinIsLabel(pk, Slug(n.lower(model)), n.digest(model));
  }

  /** The text before the first hyphen determines itself and what follows. */
  lemma FirstHyphenSplits(a: string, x: string, b: string, y: string)
    requires (forall i :: 0 <= i < |a| ==> a[i] != '-') && (forall i :: 0 <= i < |b| ==> b[i] != '-')
    requires a + "-" + x == b + "-" + y
    ensures a == b && x == y
  {
    var s, t := a + "-" + x, b + "-" + y;
    assert s[|a|] == '-' && t[|b|] == '-';
    assert (forall i :: 0 <= i < |a| ==> s[i] != '-') && (forall i :: 0 <= i < |b| ==> t[i] != '-');
    assert |a| == |b|;
    assert a == s[..|a|] && b == t[..|b|] && x == s[|a| + 1..] && y == t[|b| + 1..];
  }

  lemma JoinParses(pk: nat, slug: string, digest: string, pk': nat, slug': string, digest': string)
    requires |digest| == |digest'| && Join(pk, slug, digest) == Join(pk', slug', digest')
    ensures pk == pk' && slug == slug' && digest == digest'
  {
    var x, y := slug + "-" + digest, slug' + "-" + digest';
    assert Dec(pk) + "-" + x == Join(pk, slug, digest)[|PREFIX|..];
    assert Dec(pk') + "-" + y == Join(pk', slug', digest')[|PREFIX|..];
    FirstHyphenSplits(Dec(pk), x, Dec(pk'), y);
    DecInjective(pk, pk');
    assert digest == x[|x| - |digest|..] && digest' == y[|y| - |digest|..];
    assert slug == x[..|x| - |digest| - 1] && slug' == y[..|y| - |digest| - 1];
  }

  /** Two names are equal exactly when project, slug and digest are. */
  lemma RouteNameParses(n: Naming, pk: nat, model: string, pk': nat, model': string)
    requires Usable(n)
    ensures RouteName(n, pk, model) == RouteName(n, pk', model') <==>
            pk == pk' && Slug(n.lower(model)) == Slug(n.lower(model')) && n.digest(model) == n.digest(model')
  {
    if RouteName(n, pk, model) == RouteName(n, pk', model') {
      assert |n.digest(model)| == |n.digest(model')|;
      JoinParses(pk, Slug(n.lower(model)), n.digest(model), pk', Slug(n.lower(model')), n.digest(model'));
    }
  }
}
