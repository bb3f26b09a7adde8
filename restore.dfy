/**
 * `restoreCustomImages(messageId)` (index.js:733-802): after the message has
 * been redrawn, its stored media records are turned back into containers.
 * The containers already in the markup are removed first; then, record by
 * record, a container whose id is already on the page is skipped, and any
 * other is put immediately before the first match of the legacy pattern, or
 * appended at the end when the pattern does not match. A restored container
 * put before a match is announced with `EventImgRestored`. The pattern is
 * compiled inside the loop, so one that does not compile stops the loop at
 * the first record still to be rendered.
 *
 * The fold `RestoreAll` specifies the loop; `RestoreCustomImages` is the loop.
 */
module Restore {
  import opened Wrappers
  import opened Text
  import opened Extract
  import opened Media
  import opened Chat

  /** The markup so far, the ids rendered so far, the events so far, and whether `new RegExp` threw. */
  datatype RestoreState = RestoreState(html: string, rendered: seq<string>, events: seq<Event>, threw: bool)

  /** One iteration of the `forEach` over the records. */
  function RestoreStep(st: RestoreState, r: Record, messageId: nat, regex: Pattern, sniffVideo: bool): RestoreState {
    if st.threw || r.id in st.rendered then st
    else if !regex.valid then st.(threw := true)
    else
      var c := Render(ViewOf(r, sniffVideo));
      match regex.exec(st.html)
      case Some(m) =>
        if m.full != [] then
          RestoreState(ReplaceFirst(st.html, m.full, c + m.full), st.rendered + [r.id],
                       st.events + [ImgRestored(messageId, r.id)], false)
        else RestoreState(st.html + c, st.rendered + [r.id], st.events, false)
      case None => RestoreState(st.html + c, st.rendered + [r.id], st.events, false)
  }

  /** The state after the loop has run over `records`, starting from the markup without containers. */
  function RestoreAll(records: seq<Record>, messageId: nat, regex: Pattern, sniffVideo: bool, stripped: string): RestoreState
    decreases |records|
  {
    if records == [] then RestoreState(stripped, [], [], false)
    else RestoreStep(RestoreAll(records[..|records| - 1], messageId, regex, sniffVideo, stripped),
                     records[|records| - 1], messageId, regex, sniffVideo)
  }

  /** The ids of the records, in order. */
  function Ids(records: seq<Record>): (ids: seq<string>)
    ensures |ids| == |records| && forall i :: 0 <= i < |records| ==> ids[i] == records[i].id
  {
    if records == [] then [] else Ids(records[..|records| - 1]) + [records[|records| - 1].id]
  }

  /** The first occurrence of each element, in order. */
  function Distinct(xs: seq<string>): seq<string>
    decreases |xs|
  {
    if xs == [] then []
    else
      var d := Distinct(xs[..|xs| - 1]);
      if xs[|xs| - 1] in d then d else d + [xs[|xs| - 1]]
  }

  predicate NoDuplicates(xs: seq<string>) {
    forall i, j :: 0 <= i < j < |xs| ==> xs[i] != xs[j]
  }

  /** `Distinct` keeps every element once and nothing else. */
  lemma {:induction false} DistinctMeaning(xs: seq<string>)
    ensures forall x :: x in Distinct(xs) <==> x in xs
    ensures NoDuplicates(Distinct(xs))
    decreases |xs|
  {
    if xs != [] {
      var init := xs[..|xs| - 1];
      DistinctMeaning(init);
      assert xs == init + [xs[|xs| - 1]];
    }
  }

  lemma RestoreAllSnoc(records: seq<Record>, i: nat, messageId: nat, regex: Pattern, sniffVideo: bool, stripped: string)
    requires i < |records|
    ensures RestoreAll(records[..i + 1], messageId, regex, sniffVideo, stripped)
            == RestoreStep(RestoreAll(records[..i], messageId, regex, sniffVideo, stripped), records[i], messageId, regex, sniffVideo)
  {
    assert records[..i + 1][..i] == records[..i];
  }

  /** Once `new RegExp` has thrown, the remaining records change nothing. */
  lemma {:induction false} ThrewStays(records: seq<Record>, k: nat, messageId: nat, regex: Pattern, sniffVideo: bool, stripped: string)
    requires k <= |records|
    requires RestoreAll(records[..k], messageId, regex, sniffVideo, stripped).threw
    ensures RestoreAll(records, messageId, regex, sniffVideo, stripped)
            == RestoreAll(records[..k], messageId, regex, sniffVideo, stripped)
    decreases |records| - k
  {
    if k == |records| {
      assert records[..k] == records;
    } else {
      var init := records[..|records| - 1];
      assert init[..k] == records[..k];
      ThrewStays(init, k, messageId, regex, sniffVideo, stripped);
    }
  }

  /**
   * With a pattern that compiles, the loop never throws, renders each distinct
   * id once, in the order of first appearance, and every event it produces is
   * an `EventImgRestored` for this message and a rendered id.
   */
  lemma {:induction false} RestoreRendersEachIdOnce(records: seq<Record>, messageId: nat, regex: Pattern, sniffVideo: bool, stripped: string)
    requires regex.valid
    ensures var st := RestoreAll(records, messageId, regex, sniffVideo, stripped);
            && !st.threw
            && st.rendered == Distinct(Ids(records))
            && |st.events| <= |st.rendered|
            && forall i :: 0 <= i < |st.events| ==>
                 st.events[i].ImgRestored? && st.events[i].messageId == messageId && st.events[i].imageId in st.rendered
    decreases |records|
  {
    if records != [] {
      var init := records[..|records| - 1];
      RestoreRendersEachIdOnce(init, messageId, regex, sniffVideo, stripped);
      assert Ids(records) == Ids(init) + [records[|records| - 1].id];
      assert Ids(records)[..|records| - 1] == Ids(init);
    }
  }

  /** A pattern that does not compile: the first record throws, the markup stays without containers, nothing is announced. */
  lemma {:induction false} RestoreInvalidPattern(records: seq<Record>, messageId: nat, regex: Pattern, sniffVideo: bool, stripped: string)
    requires !regex.valid && records != []
    ensures RestoreAll(records, messageId, regex, sniffVideo, stripped) == RestoreState(stripped, [], [], true)
  {
    assert records[..1][..0] == [];
    assert RestoreAll(records[..1], messageId, regex, sniffVideo, stripped) == RestoreState(stripped, [], [], true);
    ThrewStays(records, 1, messageId, regex, sniffVideo, stripped);
  }

  /** The pattern matches exactly the text `d` wherever `d` occurs, and nothing where it does not. */
  ghost predicate FixedMatch(regex: Pattern, d: string) {
    forall h :: (Occurs(h, d) ==> regex.exec(h) == Some(RegexMatch(d, []))) && (!Occurs(h, d) ==> regex.exec(h).None?)
  }

  lemma SpliceKeepsDirective(html: string, d: string, c: string)
    requires Occurs(html, d)
    ensures Occurs(ReplaceFirst(html, d, c + d), d)
  {
    InsertBeforeFirst(html, d, c);
    var i := IndexOf(html, d).value;
    var h := ReplaceFirst(html, d, c + d);
    assert OccursAt(h, d, i + |c|) && i + |c| <= |h|;
  }

  lemma StepKeepsDirective(st: RestoreState, r: Record, messageId: nat, regex: Pattern, sniffVideo: bool, d: string)
    requires regex.valid && d != [] && FixedMatch(regex, d) && Occurs(st.html, d) && !st.threw
    ensures var next := RestoreStep(st, r, messageId, regex, sniffVideo);
            && Occurs(next.html, d) && !next.threw
            && (next.rendered == st.rendered ==> next == st)
            && (next.rendered != st.rendered ==>
                  next.rendered == st.rendered + [r.id] && next.events == st.events + [ImgRestored(messageId, r.id)])
  {
    if r.id !in st.rendered {
      var c := Render(ViewOf(r, sniffVideo));
      assert regex.exec(st.html) == Some(RegexMatch(d, []));
      var h := ReplaceFirst(st.html, d, c + d);
      assert RestoreStep(st, r, messageId, regex, sniffVideo)
          == RestoreState(h, st.rendered + [r.id], st.events + [ImgRestored(messageId, r.id)], false);
      SpliceKeepsDirective(st.html, d, c);
    }
  }

  /**
   * When the markup holds the directive the pattern matches, the directive
   * survives every step and each rendered id gets its `EventImgRestored`, in
   * order. Where the containers go is `RestoreBeforeDirective`.
   */
  lemma {:induction false} RestoreKeepsDirective(records: seq<Record>, messageId: nat, regex: Pattern, sniffVideo: bool,
                                                 stripped: string, d: string)
    requires regex.valid && d != [] && FixedMatch(regex, d) && Occurs(stripped, d)
    ensures var st := RestoreAll(records, messageId, regex, sniffVideo, stripped);
            && Occurs(st.html, d)
            && |st.events| == |st.rendered|
            && forall i :: 0 <= i < |st.events| ==> st.events[i] == ImgRestored(messageId, st.rendered[i])
    decreases |records|
  {
    if records != [] {
      var init := records[..|records| - 1];
      RestoreKeepsDirective(init, messageId, regex, sniffVideo, stripped, d);
      RestoreRendersEachIdOnce(init, messageId, regex, sniffVideo, stripped);
      StepKeepsDirective(RestoreAll(init, messageId, regex, sniffVideo, stripped), records[|records| - 1],
                         messageId, regex, sniffVideo, d);
    }
  }

  /** The strings one after the other. */
  function Concat(xs: seq<string>): string
    decreases |xs|
  {
    if xs == [] then [] else Concat(xs[..|xs| - 1]) + xs[|xs| - 1]
  }

  /** The containers the loop renders, in order: one for each record whose id no earlier record has. */
  function Containers(records: seq<Record>, sniffVideo: bool): seq<string>
    decreases |records|
  {
    if records == [] then []
    else
      var init := records[..|records| - 1];
      var r := records[|records| - 1];
      if r.id in Ids(init) then Containers(init, sniffVideo)
      else Containers(init, sniffVideo) + [Render(ViewOf(r, sniffVideo))]
  }

  /**
   * However many of the containers `cs` have been put after `pre`, the
   * directive `d` right after them is its first occurrence: no container,
   * alone or joined to what comes before or after it, spells `d`.
   */
  ghost predicate DirectiveStaysFirst(pre: string, cs: seq<string>, d: string) {
    forall n, j :: 0 <= n <= |cs| && 0 <= j < |pre| + |Concat(cs[..n])| ==> !OccursAt(pre + Concat(cs[..n]) + d, d, j)
  }

  /** A text that starts with `d` after `a`, where `a + d` has no earlier `d`, has its first `d` right after `a`. */
  lemma FirstAfter(a: string, d: string, rest: string)
    requires OccursAt(rest, d, 0)
    requires forall j :: 0 <= j < |a| ==> !OccursAt(a + d, d, j)
    ensures IndexOf(a + rest, d) == Some(|a|)
  {
    var h := a + rest;
    assert h[..|a| + |d|] == a + d by {
      assert rest[..|d|] == d;
    }
    assert OccursAt(h, d, |a|) by {
      assert h[|a|..|a| + |d|] == rest[..|d|];
    }
    forall j | 0 <= j < |a|
      ensures !OccursAt(h, d, j)
    {
      assert !OccursAt(a + d, d, j);
      assert h[j..j + |d|] == (a + d)[j..j + |d|];
    }
  }

  /** The premise for some containers holds for the first of them. */
  lemma StaysFirstPrefix(pre: string, cs: seq<string>, m: nat, d: string)
    requires m <= |cs| && DirectiveStaysFirst(pre, cs, d)
    ensures DirectiveStaysFirst(pre, cs[..m], d)
  {
    forall n, j | 0 <= n <= m && 0 <= j < |pre| + |Concat(cs[..m][..n])|
      ensures !OccursAt(pre + Concat(cs[..m][..n]) + d, d, j)
    {
      assert cs[..m][..n] == cs[..n];
    }
  }

  /** The text from an occurrence on starts with it. */
  lemma SuffixAt(s: string, d: string, k: nat)
    requires OccursAt(s, d, k)
    ensures OccursAt(s[k..], d, 0)
  {
    assert s[k..][..|d|] == s[k..k + |d|];
  }

  lemma Regroup(p: string, q: string, c: string, rest: string)
    ensures p + q + c + rest == p + (q + c) + rest
  {
  }

  /**
   * A step that renders `r` while the directive first follows `pre` and the
   * containers `cs` puts its container right after them, before the directive.
   */
  lemma StepBeforeDirective(st: RestoreState, r: Record, messageId: nat, regex: Pattern, sniffVideo: bool,
                            pre: string, cs: seq<string>, rest: string, d: string)
    requires regex.valid && d != [] && FixedMatch(regex, d) && !st.threw && r.id !in st.rendered
    requires st.html == pre + Concat(cs) + rest && OccursAt(rest, d, 0) && DirectiveStaysFirst(pre, cs, d)
    ensures RestoreStep(st, r, messageId, regex, sniffVideo).html == pre + Concat(cs + [Render(ViewOf(r, sniffVideo))]) + rest
  {
    var c := Render(ViewOf(r, sniffVideo));
    var a := pre + Concat(cs);
    assert cs[..|cs|] == cs;
    FirstAfter(a, d, rest);
    assert Occurs(st.html, d);
    assert regex.exec(st.html) == Some(RegexMatch(d, []));
    InsertBeforeFirst(st.html, d, c);
    assert (a + rest)[..|a|] == a && (a + rest)[|a|..] == rest;
    assert Concat(cs + [c]) == Concat(cs) + c by {
      assert (cs + [c])[..|cs|] == cs;
    }
    Regroup(pre, Concat(cs), c, rest);
  }

  /** The premise for a list of records holds for the list without its last record. */
  lemma StaysFirstInit(records: seq<Record>, sniffVideo: bool, pre: string, d: string)
    requires records != [] && DirectiveStaysFirst(pre, Containers(records, sniffVideo), d)
    ensures DirectiveStaysFirst(pre, Containers(records[..|records| - 1], sniffVideo), d)
  {
    var cs := Containers(records, sniffVideo);
    var csi := Containers(records[..|records| - 1], sniffVideo);
    assert cs[..|csi|] == csi;
    StaysFirstPrefix(pre, cs, |csi|, d);
  }

  /**
   * With the directive first at position `k` of the markup without
   * containers, the loop leaves the markup before it, then every rendered
   * container in list order, then the directive and the rest: each container
   * goes immediately before the directive, after the ones placed earlier.
   */
  lemma {:induction false} RestoreBeforeDirective(records: seq<Record>, messageId: nat, regex: Pattern, sniffVideo: bool,
                                                  stripped: string, d: string)
    requires regex.valid && d != [] && FixedMatch(regex, d) && Occurs(stripped, d)
    requires DirectiveStaysFirst(stripped[..IndexOf(stripped, d).value], Containers(records, sniffVideo), d)
    ensures var k := IndexOf(stripped, d).value;
            RestoreAll(records, messageId, regex, sniffVideo, stripped).html
              == stripped[..k] + Concat(Containers(records, sniffVideo)) + stripped[k..]
    decreases |records|
  {
    var k := IndexOf(stripped, d).value;
    if records == [] {
      assert stripped == stripped[..k] + stripped[k..];
    } else {
      StaysFirstInit(records, sniffVideo, stripped[..k], d);
      RestoreBeforeDirective(records[..|records| - 1], messageId, regex, sniffVideo, stripped, d);
      BeforeDirectiveSnoc(records, messageId, regex, sniffVideo, stripped, d);
    }
  }

  /** The step of `RestoreBeforeDirective`: from the list without its last record to the whole list. */
  lemma BeforeDirectiveSnoc(records: seq<Record>, messageId: nat, regex: Pattern, sniffVideo: bool, stripped: string, d: string)
    requires records != [] && regex.valid && d != [] && FixedMatch(regex, d) && Occurs(stripped, d)
    requires var k := IndexOf(stripped, d).value;
             var init := records[..|records| - 1];
             && DirectiveStaysFirst(stripped[..k], Containers(init, sniffVideo), d)
             && RestoreAll(init, messageId, regex, sniffVideo, stripped).html
                  == stripped[..k] + Concat(Containers(init, sniffVideo)) + stripped[k..]
    ensures var k := IndexOf(stripped, d).value;
            RestoreAll(records, messageId, regex, sniffVideo, stripped).html
              == stripped[..k] + Concat(Containers(records, sniffVideo)) + stripped[k..]
  {
    var k := IndexOf(stripped, d).value;
    var init := records[..|records| - 1];
    var r := records[|records| - 1];
    var csi := Containers(init, sniffVideo);
    RestoreRendersEachIdOnce(init, messageId, regex, sniffVideo, stripped);
    DistinctMeaning(Ids(init));
    var st := RestoreAll(init, messageId, regex, sniffVideo, stripped);
    if r.id !in Ids(init) {
      assert r.id !in st.rendered;
      SuffixAt(stripped, d, k);
      StepBeforeDirective(st, r, messageId, regex, sniffVideo, stripped[..k], csi, stripped[k..], d);
    }
  }

  /** Without any match the containers are only appended: the markup keeps its start and nothing is announced. */
  lemma {:induction false} RestoreWithoutMatchAppends(records: seq<Record>, messageId: nat, regex: Pattern, sniffVideo: bool, stripped: string)
    requires regex.valid && forall h :: regex.exec(h).None?
    ensures var st := RestoreAll(records, messageId, regex, sniffVideo, stripped);
            && |stripped| <= |st.html| && st.html[..|stripped|] == stripped && st.events == []
    decreases |records|
  {
    if records != [] {
      var init := records[..|records| - 1];
      RestoreWithoutMatchAppends(init, messageId, regex, sniffVideo, stripped);
      var prev := RestoreAll(init, messageId, regex, sniffVideo, stripped);
      var next := RestoreStep(prev, records[|records| - 1], messageId, regex, sniffVideo);
      assert regex.exec(prev.html).None?;
      assert prev.html <= next.html;
    }
  }

  /**
   * The loop of `restoreCustomImages` on message `m`, whose `.mes_text` is
   * `stripped` once the existing containers are removed.
   */
  method RestoreCustomImages(m: Message, host: Host, useCustomContainers: bool, regex: Pattern, sniffVideo: bool,
                             stripped: string) returns (threw: bool)
    modifies m`html, host`events
    ensures !useCustomContainers || m.customImages.None? ==>
              m.html == old(m.html) && host.events == old(host.events) && !threw
    ensures useCustomContainers && m.customImages.Some? ==>
              var st := RestoreAll(m.customImages.value, m.id, regex, sniffVideo, stripped);
              m.html == st.html && host.events == old(host.events) + st.events && threw == st.threw
  {
    threw := false;
    if !useCustomContainers || m.customImages.None? {
      return;
    }
    var records := m.customImages.value;
    m.html := stripped;
    var rendered: seq<string> := [];
    ghost var events0 := host.events;
    ghost var st := RestoreState(stripped, [], [], false);
    var i := 0;
    while i < |records|
      invariant 0 <= i <= |records| && !threw
      invariant st == RestoreAll(records[..i], m.id, regex, sniffVideo, stripped)
      invariant m.html == st.html && rendered == st.rendered && host.events == events0 + st.events && !st.threw
    {
      var r := records[i];
      RestoreAllSnoc(records, i, m.id, regex, sniffVideo, stripped);
      ghost var next := RestoreStep(st, r, m.id, regex, sniffVideo);
      if r.id !in rendered {
        if !regex.valid {
          threw := true;
          assert RestoreAll(records, m.id, regex, sniffVideo, stripped) == next by {
            ThrewStays(records, i + 1, m.id, regex, sniffVideo, stripped);
            assert records[..|records|] == records;
          }
          return;
        }
        var c := Render(ViewOf(r, sniffVideo));
        var found := regex.exec(m.html);
        if found.Some? && found.value.full != [] {
          m.html := ReplaceFirst(m.html, found.value.full, c + found.value.full);
          host.events := host.events + [ImgRestored(m.id, r.id)];
          assert next == RestoreState(m.html, rendered + [r.id], st.events + [ImgRestored(m.id, r.id)], false);
        } else {
          m.html := m.html + c;
          assert next == RestoreState(m.html, rendered + [r.id], st.events, false);
        }
        rendered := rendered + [r.id];
      } else {
        assert next == st;
      }
      st := next;
      i := i + 1;
    }
    assert records[..i] == records;
  }
}
