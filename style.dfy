/**
 * `processPromptWithStyle` (index.js:277-305, the same code as
 * backup/index.js:266-294): the prompt, the style's positive keywords and the
 * negative prompt are each read as a list of keywords (split on `,` or the
 * full-width `，`, trimmed, lower-cased, empty ones dropped); the user's
 * keywords lose the negative ones, the style's positives lose the ones the
 * user already has, and the two lists are joined with `", "`, style first.
 */
module Style {
  import opened Wrappers
  import opened Text

  /** The separator class `[,，]` of `toKeywords`. */
  const Commas: set<char> := {',', '\U{FF0C}'}

  /** What `toKeywords` can produce: non-empty, trimmed, lower-case, no separator inside. */
  predicate IsKeyword(k: string) {
    k != [] && IsTrimmed(k) && NoUpper(k) && NoSep(k, Commas)
  }

  predicate AllKeywords(ks: seq<string>) {
    forall i :: 0 <= i < |ks| ==> IsKeyword(ks[i])
  }

  /** One piece of the split, as `k.trim().toLowerCase()` leaves it. */
  function Clean(p: string): (k: string)
    ensures NoSep(p, Commas) ==> k == [] || IsKeyword(k)
  {
    CleanIsKeyword(p);
    ToLower(Trim(p))
  }

  lemma CleanIsKeyword(p: string)
    ensures NoSep(p, Commas) ==> ToLower(Trim(p)) == [] || IsKeyword(ToLower(Trim(p)))
  {
    if NoSep(p, Commas) {
      var t := Trim(p);
      TrimNoSep(p, Commas);
      ToLowerNoSep(t, Commas);
      ToLowerKeepsTrimmed(t);
      ToLowerNoUpper(t);
    }
  }

  /** `.map(k => k.trim().toLowerCase()).filter(Boolean)` over the pieces, order kept. */
  function Normalize(parts: seq<string>): (ks: seq<string>)
    ensures |ks| <= |parts|
    ensures (forall j :: 0 <= j < |parts| ==> NoSep(parts[j], Commas)) ==> AllKeywords(ks)
  {
    if parts == [] then []
    else
      var k := Clean(parts[0]);
      if k == [] then Normalize(parts[1..]) else [k] + Normalize(parts[1..])
  }

  /** `toKeywords(s)`. */
  function Keywords(s: string): (ks: seq<string>)
    ensures AllKeywords(ks)
  {
    Normalize(Split(s, Commas))
  }

  /** `xs.filter(x => !ys.includes(x))`. */
  function Without(xs: seq<string>, ys: seq<string>): (r: seq<string>)
    ensures |r| <= |xs|
    ensures forall i :: 0 <= i < |r| ==> r[i] in xs && r[i] !in ys
    ensures forall i :: 0 <= i < |xs| && xs[i] !in ys ==> xs[i] in r
  {
    if xs == [] then []
    else if xs[0] in ys then Without(xs[1..], ys)
    else [xs[0]] + Without(xs[1..], ys)
  }

  /** `xs.filter(x => ys.includes(x))`: the part `Without` drops. */
  function Keep(xs: seq<string>, ys: seq<string>): (r: seq<string>)
    ensures forall i :: 0 <= i < |r| ==> r[i] in xs && r[i] in ys
    ensures forall i :: 0 <= i < |xs| && xs[i] in ys ==> xs[i] in r
  {
    if xs == [] then []
    else if xs[0] in ys then [xs[0]] + Keep(xs[1..], ys)
    else Keep(xs[1..], ys)
  }

  /** The keyword algebra: the user's keywords without the negatives, after the style positives the user does not have. */
  function StyledKeywords(user: seq<string>, positive: seq<string>, negative: seq<string>): seq<string> {
    var cleaned := Without(user, negative);
    Without(positive, cleaned) + cleaned
  }

  /** The styled prompt for a known style. */
  function ApplyStyle(userPrompt: string, positive: string, negativePrompt: string): (r: string)
    ensures Keywords(r) == StyledKeywords(Keywords(userPrompt), Keywords(positive), Keywords(negativePrompt))
  {
    var ks := StyledKeywords(Keywords(userPrompt), Keywords(positive), Keywords(negativePrompt));
    StyledAreKeywords(Keywords(userPrompt), Keywords(positive), Keywords(negativePrompt));
    KeywordsJoin(ks);
    Join(ks, ", ")
  }

  lemma {:induction false} WithoutKeywords(xs: seq<string>, ys: seq<string>)
    requires AllKeywords(xs)
    ensures AllKeywords(Without(xs, ys))
  {
    if xs != [] {
      WithoutKeywords(xs[1..], ys);
    }
  }

  lemma StyledAreKeywords(user: seq<string>, positive: seq<string>, negative: seq<string>)
    requires AllKeywords(user) && AllKeywords(positive)
    ensures AllKeywords(StyledKeywords(user, positive, negative))
  {
    var cleaned := Without(user, negative);
    WithoutKeywords(user, negative);
    WithoutKeywords(positive, cleaned);
  }

  datatype StyleDef = StyleDef(positive: string, negative: string)

  const PhotoRealisticPositive := "masterpiece, highly detailed, photorealistic, 4K resolution, absurdres"
  const PhotoRealisticNegative := "hentai, manga, anime, cartoon"

  /** `STYLES[key]` (index.js:25-34, backup/index.js:24-33). */
  function Lookup(key: string): (d: Option<StyleDef>)
    ensures d.Some? <==> key == "photo_realistic" || key == "hentai_manga"
  {
    if key == "photo_realistic" then Some(StyleDef(PhotoRealisticPositive, PhotoRealisticNegative))
    else if key == "hentai_manga" then Some(StyleDef("hentai, manga", PhotoRealisticPositive))
    else None
  }

  /**
   * `processPromptWithStyle(userPrompt)` with the settings' `style` and
   * `negativePrompt`: an unknown style returns the prompt as it is, a known
   * one returns the styled keyword list.
   */
  function ProcessPromptWithStyle(userPrompt: string, style: string, negativePrompt: string): (r: string)
    ensures Lookup(style).None? ==> r == userPrompt
    ensures Lookup(style).Some? ==>
      Keywords(r) == StyledKeywords(Keywords(userPrompt), Keywords(Lookup(style).value.positive), Keywords(negativePrompt))
  {
    match Lookup(style)
    case None => userPrompt
    case Some(def) => ApplyStyle(userPrompt, def.positive, negativePrompt)
  }

  // ------------------------------------------------- reading back the join

  /** Every keyword after the first, as it follows a `","` in the joined string. */
  function Spaced(ks: seq<string>): (r: seq<string>)
    ensures |r| == |ks|
    ensures forall i :: 0 <= i < |ks| ==> r[i] == [' '] + ks[i]
  {
    if ks == [] then [] else [[' '] + ks[0]] + Spaced(ks[1..])
  }

  lemma {:induction false} JoinSpaced(ks: seq<string>)
    requires |ks| >= 1
    ensures Join(Spaced(ks), ",") == [' '] + Join(ks, ", ")
  {
    if |ks| > 1 {
      JoinSpaced(ks[1..]);
      assert Spaced(ks)[1..] == Spaced(ks[1..]);
      assert ", " == "," + [' '];
    }
  }

  /** A keyword, with or without the space the joiner puts in front of it, cleans to itself. */
  lemma CleanKeyword(k: string)
    requires IsKeyword(k)
    ensures NoSep([' '] + k, Commas)
    ensures Clean(k) == k && Clean([' '] + k) == k
  {
    var sk := [' '] + k;
    forall i | 0 <= i < |sk|
      ensures sk[i] !in Commas
    {
      if i > 0 {
        assert sk[i] == k[i - 1];
      }
    }
    assert ToLower(k) == k by { ToLowerOfLower(k); }
    assert Trim(k) == k;
    assert Trim(sk) == k by { TrimAfterSpace(k); }
  }

  lemma NormalizeSpaced(ks: seq<string>)
    requires AllKeywords(ks)
    ensures Normalize(Spaced(ks)) == ks
  {
    var sp := Spaced(ks);
    forall i | 0 <= i < |ks|
      ensures Clean(sp[i]) == ks[i] && ks[i] != []
    {
      CleanKeyword(ks[i]);
    }
    NormalizeCleaned(sp, ks);
  }

  /** Pieces that each clean to a non-empty keyword normalize to those keywords. */
  lemma {:induction false} NormalizeCleaned(parts: seq<string>, ks: seq<string>)
    requires |parts| == |ks|
    requires forall i :: 0 <= i < |parts| ==> Clean(parts[i]) == ks[i] && ks[i] != []
    ensures Normalize(parts) == ks
  {
    if parts != [] {
      NormalizeCleaned(parts[1..], ks[1..]);
      assert [ks[0]] + ks[1..] == ks;
    }
  }

  lemma JoinCons(p: string, rest: seq<string>, sep: string)
    requires |rest| >= 1
    ensures Join([p] + rest, sep) == p + sep + Join(rest, sep)
  {
    assert ([p] + rest)[1..] == rest;
  }

  lemma CommaSpace(a: string, t: string)
    ensures a + "," + ([' '] + t) == a + ", " + t
  {
  }

  /** `ks.join(", ")` is the first keyword and the spaced others joined with `","`. */
  lemma JoinAsParts(ks: seq<string>)
    requires |ks| >= 1
    ensures Join(ks, ", ") == Join([ks[0]] + Spaced(ks[1..]), ",")
  {
    if |ks| > 1 {
      var tail := Join(ks[1..], ", ");
      JoinSpaced(ks[1..]);
      JoinCons(ks[0], Spaced(ks[1..]), ",");
      JoinCons(ks[0], ks[1..], ", ");
      assert [ks[0]] + ks[1..] == ks;
      CommaSpace(ks[0], tail);
    } else {
      assert Spaced(ks[1..]) == [];
      assert [ks[0]] + Spaced(ks[1..]) == ks;
    }
  }

  /** The pieces of `ks.join(", ")` split on the commas: the first keyword, then each other one after its space. */
  lemma PartsNoSep(ks: seq<string>)
    requires |ks| >= 1 && AllKeywords(ks)
    ensures forall j :: 0 <= j < |ks| ==> NoSep(([ks[0]] + Spaced(ks[1..]))[j], Commas)
  {
    var parts := [ks[0]] + Spaced(ks[1..]);
    forall j | 0 <= j < |ks|
      ensures NoSep(parts[j], Commas)
    {
      if j > 0 {
        assert parts[j] == [' '] + ks[j];
        CleanKeyword(ks[j]);
      }
    }
  }

  lemma NormalizeParts(ks: seq<string>)
    requires |ks| >= 1 && AllKeywords(ks)
    ensures Normalize([ks[0]] + Spaced(ks[1..])) == ks
  {
    var parts := [ks[0]] + Spaced(ks[1..]);
    assert Normalize(parts[1..]) == ks[1..] by {
      assert parts[1..] == Spaced(ks[1..]);
      NormalizeSpaced(ks[1..]);
    }
    assert Clean(ks[0]) == ks[0] by { CleanKeyword(ks[0]); }
  }

  /** Joining keywords with `", "` and reading the keywords again gives the same list. */
  lemma KeywordsJoin(ks: seq<string>)
    requires AllKeywords(ks)
    ensures Keywords(Join(ks, ", ")) == ks
  {
    if ks == [] {
      assert Split([], Commas) == [[]];
      assert Clean([]) == [];
    } else {
      var parts := [ks[0]] + Spaced(ks[1..]);
      JoinAsParts(ks);
      NormalizeParts(ks);
      PartsNoSep(ks);
      SplitJoin(parts, ',', Commas);
    }
  }

  // ------------------------------------------------------ keyword algebra

  /** `xs` is `ys` with some elements dropped, the rest kept in order. */
  predicate Subsequence(xs: seq<string>, ys: seq<string>)
    decreases |ys|
  {
    if xs == [] then true
    else if ys == [] then false
    else if xs[0] == ys[0] then Subsequence(xs[1..], ys[1..])
    else Subsequence(xs, ys[1..])
  }

  /** Filtering keeps the order of what it keeps. */
  lemma {:induction false} WithoutSubsequence(xs: seq<string>, ys: seq<string>)
    ensures Subsequence(Without(xs, ys), xs)
  {
    if xs != [] {
      WithoutSubsequence(xs[1..], ys);
      var w := Without(xs[1..], ys);
      if xs[0] !in ys {
        assert ([xs[0]] + w)[1..] == w;
      } else if w != [] {
        SubsequenceDrop(w, xs[1..], xs[0]);
      }
    }
  }

  lemma {:induction false} SubsequenceDrop(xs: seq<string>, ys: seq<string>, y: string)
    requires xs != [] && Subsequence(xs, ys)
    ensures Subsequence(xs, [y] + ys)
    decreases |ys|, 1
  {
    if xs[0] == y {
      assert ([y] + ys)[1..] == ys;
      SubsequenceTail(xs, ys);
    } else {
      assert ([y] + ys)[1..] == ys;
    }
  }

  /** Dropping the first element of a subsequence keeps it a subsequence. */
  lemma {:induction false} SubsequenceTail(xs: seq<string>, ys: seq<string>)
    requires xs != [] && Subsequence(xs, ys)
    ensures Subsequence(xs[1..], ys)
    decreases |ys|, 0
  {
    if xs[0] == ys[0] {
      if xs[1..] != [] {
        SubsequenceTail(xs[1..], ys[1..]);
        SubsequenceDrop(xs[1..], ys[1..], ys[0]);
        assert [ys[0]] + ys[1..] == ys;
      }
    } else {
      SubsequenceTail(xs, ys[1..]);
      if xs[1..] != [] {
        SubsequenceDrop(xs[1..], ys[1..], ys[0]);
        assert [ys[0]] + ys[1..] == ys;
      }
    }
  }

  lemma {:induction false} WithoutConcat(a: seq<string>, b: seq<string>, ys: seq<string>)
    ensures Without(a + b, ys) == Without(a, ys) + Without(b, ys)
  {
    if a != [] {
      WithoutConcat(a[1..], b, ys);
      assert (a + b)[1..] == a[1..] + b;
    } else {
      assert a + b == b;
    }
  }

  lemma {:induction false} WithoutNoop(xs: seq<string>, ys: seq<string>)
    requires forall i :: 0 <= i < |xs| ==> xs[i] !in ys
    ensures Without(xs, ys) == xs
  {
    if xs != [] {
      WithoutNoop(xs[1..], ys);
    }
  }

  lemma {:induction false} KeepNone(xs: seq<string>, ys: seq<string>)
    requires forall i :: 0 <= i < |xs| ==> xs[i] !in ys
    ensures Keep(xs, ys) == []
  {
    if xs != [] {
      KeepNone(xs[1..], ys);
    }
  }

  /** `Keep` and `Without` split a list in two: together they hold each element as often as the list does. */
  lemma {:induction false} Partition(xs: seq<string>, ys: seq<string>)
    ensures multiset(Keep(xs, ys)) + multiset(Without(xs, ys)) == multiset(xs)
  {
    if xs != [] {
      var t := xs[1..];
      Partition(t, ys);
      assert multiset(xs) == multiset([xs[0]]) + multiset(t) by {
        assert xs == [xs[0]] + t;
      }
      if xs[0] in ys {
        assert Keep(xs, ys) == [xs[0]] + Keep(t, ys);
        assert Without(xs, ys) == Without(t, ys);
      } else {
        assert Keep(xs, ys) == Keep(t, ys);
        assert Without(xs, ys) == [xs[0]] + Without(t, ys);
      }
    }
  }

  /** Filtering out `c` is keeping `b` after filtering out `a`, when on `xs` membership in `c` means "in `a` or not in `b`". */
  lemma {:induction false} WithoutAsKeep(xs: seq<string>, c: seq<string>, a: seq<string>, b: seq<string>)
    requires forall i :: 0 <= i < |xs| ==> (xs[i] in c <==> xs[i] in a || xs[i] !in b)
    ensures Without(xs, c) == Keep(Without(xs, a), b)
  {
    if xs != [] {
      WithoutAsKeep(xs[1..], c, a, b);
    }
  }

  /**
   * What the styled list holds: a keyword is in it exactly when it is a style
   * positive or a user keyword that is not negative, so a negative keyword is
   * removed from the user's side only; no keyword is on both sides; and the
   * style side keeps the declared order of the positives, the user side the
   * user's order.
   */
  lemma StyledKeywordsMeaning(user: seq<string>, positive: seq<string>, negative: seq<string>)
    ensures var r := StyledKeywords(user, positive, negative);
            && (forall k :: k in r <==> k in positive || (k in user && k !in negative))
            && |r| <= |positive| + |user|
    ensures var cleaned := Without(user, negative);
            forall i, j :: 0 <= i < |Without(positive, cleaned)| && 0 <= j < |cleaned| ==>
              Without(positive, cleaned)[i] != cleaned[j]
    ensures var cleaned := Without(user, negative);
            var r := StyledKeywords(user, positive, negative);
            var n := |Without(positive, cleaned)|;
            && Subsequence(r[..n], positive)
            && Subsequence(r[n..], user)
  {
    var cleaned := Without(user, negative);
    WithoutSubsequence(positive, cleaned);
    WithoutSubsequence(user, negative);
    assert StyledKeywords(user, positive, negative)[..|Without(positive, cleaned)|] == Without(positive, cleaned);
    assert StyledKeywords(user, positive, negative)[|Without(positive, cleaned)|..] == cleaned;
    var r := StyledKeywords(user, positive, negative);
    forall k
      ensures k in r <==> k in positive || (k in user && k !in negative)
    {
      if k in positive && k !in cleaned {
        var i :| 0 <= i < |positive| && positive[i] == k;
        assert k in Without(positive, cleaned);
      }
      if k in user && k !in negative {
        var i :| 0 <= i < |user| && user[i] == k;
        assert k in cleaned;
      }
    }
  }

  /** The keyword algebra applied to its own output keeps the multiset, and the list when positives and negatives are apart. */
  lemma StyledTwice(user: seq<string>, positive: seq<string>, negative: seq<string>)
    ensures var once := StyledKeywords(user, positive, negative);
            multiset(StyledKeywords(once, positive, negative)) == multiset(once)
    ensures (forall i :: 0 <= i < |positive| ==> positive[i] !in negative) ==>
            var once := StyledKeywords(user, positive, negative);
            StyledKeywords(once, positive, negative) == once
  {
    var c := Without(user, negative);
    var w := Without(positive, c);
    var c2 := Without(w + c, negative);
    assert c2 == Without(w, negative) + c by {
      WithoutConcat(w, c, negative);
      WithoutNoop(c, negative);
    }
    assert Without(positive, c2) == Keep(w, negative) by {
      WithoutAsKeep(positive, c2, c, negative);
    }
    var k2 := Keep(w, negative) + Without(w, negative) + c;
    assert StyledKeywords(w + c, positive, negative) == k2;
    assert multiset(Keep(w, negative)) + multiset(Without(w, negative)) == multiset(w) by {
      Partition(w, negative);
    }
    if forall i :: 0 <= i < |positive| ==> positive[i] !in negative {
      assert Keep(w, negative) == [] && Without(w, negative) == w by {
        KeepNone(w, negative);
        WithoutNoop(w, negative);
      }
    }
  }

  /**
   * Styling an already styled prompt again (what regeneration does with the
   * stored prompt when the directive is gone) gives the same keywords, maybe
   * in another order; and the very same string when no style positive is
   * also a negative keyword.
   */
  lemma StyleIdempotent(userPrompt: string, positive: string, negativePrompt: string)
    ensures var once := ApplyStyle(userPrompt, positive, negativePrompt);
            multiset(Keywords(ApplyStyle(once, positive, negativePrompt))) == multiset(Keywords(once))
    ensures (forall i :: 0 <= i < |Keywords(positive)| ==> Keywords(positive)[i] !in Keywords(negativePrompt)) ==>
            var once := ApplyStyle(userPrompt, positive, negativePrompt);
            ApplyStyle(once, positive, negativePrompt) == once
  {
    var s, n := Keywords(positive), Keywords(negativePrompt);
    var once := ApplyStyle(userPrompt, positive, negativePrompt);
    var k1 := StyledKeywords(Keywords(userPrompt), s, n);
    StyledTwice(Keywords(userPrompt), s, n);
    assert Keywords(once) == k1;
    assert once == Join(k1, ", ");
    assert ApplyStyle(once, positive, negativePrompt) == Join(StyledKeywords(k1, s, n), ", ");
  }
}
