/**
 * The older version, backup/index.js. Its helpers for dimensions and style
 * are those of index.js (`Dimensions`, `Style`); what differs is modelled
 * here: the single-pattern extraction, generation for a character message
 * with its three displays (a container, the inline image with the
 * directive's text emptied, or an error span reverted later), regeneration
 * inside `try`/`finally`, and restoration with image-only containers.
 */
module Backup {
  import opened Wrappers
  import opened Text
  import opened Dimensions
  import opened Style
  import opened Extract
  import opened Media
  import opened Chat
  import opened Restore
  import opened Generator

  // ----------------------------------------------------------- extraction

  /** The `{prompt, fullMatch}` the older extraction returns. */
  datatype Found = Found(prompt: string, fullMatch: string)

  /** `extractImagePromptFromText(text)` of backup/index.js:302-319: the one configured pattern, group 1 required. */
  function BackupExtract(regex: Pattern, text: string): (r: Option<Found>)
    ensures r.Some? <==> regex.valid && regex.exec(text).Some? && Truthy(Group(regex.exec(text).value, 1))
    ensures r.Some? ==> r.value.prompt == Trim(Group(regex.exec(text).value, 1).value)
                        && r.value.fullMatch == regex.exec(text).value.full
  {
    if !regex.valid then None
    else match regex.exec(text)
      case None => None
      case Some(m) => if Truthy(Group(m, 1)) then Some(Found(Trim(Group(m, 1).value), m.full)) else None
  }

  /** The older extraction is the newer one's legacy mode: same decision, same prompt, same full match. */
  lemma BackupAgreesWithLegacy(regex: Pattern, ecgRegex: Pattern, text: string)
    ensures var old_ := BackupExtract(regex, text);
            var new_ := ExtractImagePrompt(false, regex, ecgRegex, text);
            && (old_.Some? <==> new_.Some?)
            && (old_.Some? ==> old_.value.prompt == new_.value.prompt && old_.value.fullMatch == new_.value.fullMatch)
  {
  }

  // ------------------------------------------------- emptying tag content

  /** The characters `.` does not match without the `s` flag. */
  predicate IsLineTerminator(c: char) {
    c == '\n' || c == '\r' || c == '\U{2028}' || c == '\U{2029}'
  }

  /** The first position from `k` holding `<` or a line terminator, where a lazy `.*?<` stops or fails. */
  function NextStop(s: string, k: nat): (r: Option<nat>)
    ensures r.Some? ==> k <= r.value < |s| && (s[r.value] == '<' || IsLineTerminator(s[r.value]))
    ensures r.Some? ==> forall j :: k <= j < r.value ==> s[j] != '<' && !IsLineTerminator(s[j])
    ensures r.None? ==> forall j :: k <= j < |s| ==> s[j] != '<' && !IsLineTerminator(s[j])
    decreases |s| - k
  {
    if k >= |s| then None
    else if s[k] == '<' || IsLineTerminator(s[k]) then Some(k)
    else NextStop(s, k + 1)
  }

  /**
   * `s.replace(/>.*?</g, '><')`: scanning from the left, every `>` followed
   * on the same line by a `<` is joined to the first such `<`, dropping what
   * lies between; the scan goes on after that `<`.
   */
  function EmptyTagText(s: string): string
    decreases |s|
  {
    if s == [] then []
    else if s[0] == '>' then
      match NextStop(s, 1)
      case Some(j) =>
        if s[j] == '<' then "><" + EmptyTagText(s[j + 1..]) else [s[0]] + EmptyTagText(s[1..])
      case None => [s[0]] + EmptyTagText(s[1..])
    else [s[0]] + EmptyTagText(s[1..])
  }

  /** The number of `<` in `s`. */
  function Opens(s: string): nat {
    if s == [] then 0 else (if s[0] == '<' then 1 else 0) + Opens(s[1..])
  }

  lemma {:induction false} OpensConcat(a: string, b: string)
    ensures Opens(a + b) == Opens(a) + Opens(b)
    decreases |a|
  {
    if a == [] {
      assert a + b == b;
    } else {
      assert (a + b)[0] == a[0] && (a + b)[1..] == a[1..] + b;
      assert Opens(a + b) == (if a[0] == '<' then 1 else 0) + Opens(a[1..] + b);
      OpensConcat(a[1..], b);
    }
  }

  lemma {:induction false} OpensNone(s: string)
    requires forall j :: 0 <= j < |s| ==> s[j] != '<'
    ensures Opens(s) == 0
    decreases |s|
  {
    if s != [] {
      OpensNone(s[1..]);
    }
  }

  /** Emptying never lengthens the text and keeps every `<`: tags lose their content, not their structure. */
  lemma {:induction false} EmptyTagTextShape(s: string)
    ensures |EmptyTagText(s)| <= |s|
    ensures Opens(EmptyTagText(s)) == Opens(s)
    decreases |s|
  {
    if s != [] {
      var r := EmptyTagText(s);
      var stop := NextStop(s, 1);
      if s[0] == '>' && stop.Some? && s[stop.value] == '<' {
        var j := stop.value;
        EmptyTagTextShape(s[j + 1..]);
        assert s == [s[0]] + s[1..j] + [s[j]] + s[j + 1..];
        OpensConcat([s[0]] + s[1..j] + [s[j]], s[j + 1..]);
        OpensConcat([s[0]] + s[1..j], [s[j]]);
        OpensConcat([s[0]], s[1..j]);
        OpensNone(s[1..j]);
        OpensConcat("><", EmptyTagText(s[j + 1..]));
        assert Opens("><") == 1;
      } else {
        EmptyTagTextShape(s[1..]);
        assert s == [s[0]] + s[1..];
        OpensConcat([s[0]], s[1..]);
        OpensConcat([s[0]], EmptyTagText(s[1..]));
      }
    }
  }

  /** Text without `>` is left as it is. */
  lemma {:induction false} EmptyTagTextNoClose(s: string)
    requires forall j :: 0 <= j < |s| ==> s[j] != '>'
    ensures EmptyTagText(s) == s
    decreases |s|
  {
    if s != [] {
      EmptyTagTextNoClose(s[1..]);
    }
  }

  /** The content of a tag, on one line and without `<`, is dropped: `>text<rest` becomes `><` and the emptied rest. */
  lemma EmptyOneTag(text: string, rest: string)
    requires forall j :: 0 <= j < |text| ==> text[j] != '<' && !IsLineTerminator(text[j])
    ensures EmptyTagText(">" + text + "<" + rest) == "><" + EmptyTagText(rest)
  {
    var s := ">" + text + "<" + rest;
    assert s[1..] == text + "<" + rest;
    assert s[|text| + 1] == '<';
    assert NextStop(s, 1) == Some(|text| + 1);
    assert s[|text| + 2..] == rest;
  }

  // ----------------------------------------------------------- generation

  const BackupStatus := "/echo Generating image..."

  /** The error span shown when `/imagine` returns no URL. */
  function FailedSpan(fullMatch: string): string {
    "<span class=\"image-gen-status-error\">" + fullMatch + " - Image generation failed</span>"
  }

  /** The error span shown when a slash command throws. */
  function ErrorSpan(fullMatch: string, message: string): string {
    "<span class=\"image-gen-status-error\">" + fullMatch + " - Image generation failed: " + message + "</span>"
  }

  /** Wrapping the directive in an error span keeps the directive in the markup. */
  lemma SpanKeepsDirective(html: string, fullMatch: string, span: string, k: nat)
    requires Occurs(html, fullMatch) && OccursAt(span, fullMatch, k)
    ensures Occurs(ReplaceFirst(html, fullMatch, span), fullMatch)
  {
    var i := IndexOf(html, fullMatch).value;
    var r := ReplaceFirst(html, fullMatch, span);
    ReplaceFirstIndex(html, fullMatch, span);
    assert r == html[..i] + span + html[i + |fullMatch|..];
    assert r[i + k..i + k + |fullMatch|] == span[k..k + |fullMatch|];
    assert OccursAt(r, fullMatch, i + k);
  }

  /** Both error spans hold the directive right after the opening tag. */
  lemma ErrorSpansHoldDirective(fullMatch: string, message: string)
    ensures OccursAt(FailedSpan(fullMatch), fullMatch, 37) && OccursAt(ErrorSpan(fullMatch, message), fullMatch, 37)
  {
    var open := "<span class=\"image-gen-status-error\">";
    assert |open| == 37;
    assert FailedSpan(fullMatch)[37..37 + |fullMatch|] == fullMatch;
    assert ErrorSpan(fullMatch, message)[37..37 + |fullMatch|] == fullMatch;
  }

  /** The record the older version pushes: no type, no source, the live base size. */
  function BackupRecord(s: Settings, id: string, url: string, originalPrompt: string, finalPrompt: string, now: int): Record {
    Record(id, url, finalPrompt, originalPrompt, None, now, RecordSettings(s.aspectRatio, s.baseSize, None, s.style), false)
  }

  /** The older container always shows an image. */
  function BackupView(s: Settings, id: string, url: string, finalPrompt: string): View {
    View(id, url, finalPrompt, s.aspectRatio, s.baseSize, false, false)
  }

  /** A scheduled `messageTextElement.html(originalHtml)`. */
  datatype Revert = Revert(delayMs: nat, html: string)

  /**
   * The display of a new URL by the older `handleCharacterMessage`, from
   * `before` to `after`. In container mode the record is pushed, then the
   * markup as it is now (`latest`) is searched again: a hit gets the
   * container before the directive and the chat is saved, a miss returns
   * before the save with the record already pushed. Otherwise the URL is the
   * inline image and the directive, in the markup read before `/imagine`,
   * has its tag content emptied.
   */
  predicate BackupDisplayed(before: Shown, after: Shown, messageId: nat, s: Settings, d: Found, finalPrompt: string,
                            url: string, latest: string, id: string, now: int)
  {
    var images := Some(OrEmpty(before.images) + [BackupRecord(s, id, url, d.prompt, finalPrompt, now)]);
    var again := BackupExtract(s.regex, latest);
    && (s.useCustomContainers && again.Some? ==>
          var fm := again.value.fullMatch;
          after == before.(images := images, html := ReplaceFirst(latest, fm, Render(BackupView(s, id, url, finalPrompt)) + fm),
                           events := before.events + [ImgGenerated(messageId)], saves := before.saves + 1))
    && (s.useCustomContainers && again.None? ==> after == before.(images := images, html := latest))
    && (!s.useCustomContainers ==>
          after == before.(image := Some(url), inlineImage := true,
                           html := ReplaceFirst(before.html, d.fullMatch, EmptyTagText(d.fullMatch)),
                           mediaAppends := before.mediaAppends + 1, saves := before.saves + 1))
  }

  method BackupDisplay(m: Message, host: Host, s: Settings, d: Found, url: string, latest: string, id: string, now: int)
    modifies m`customImages, m`html, m`image, m`inlineImage, host`saves, host`events, host`mediaAppends
    ensures BackupDisplayed(old(ShownOf(m, host)), ShownOf(m, host), m.id, s, d, Styled(s, d.prompt), url, latest, id, now)
  {
    var finalPrompt := Styled(s, d.prompt);
    if s.useCustomContainers {
      var record := BackupRecord(s, id, url, d.prompt, finalPrompt, now);
      var container := Render(BackupView(s, id, url, finalPrompt));
      BackupInsertContainer(m, host, record, container, s.regex, latest);
    } else {
      BackupInlineImage(m, host, d.fullMatch, url);
    }
  }

  /** Container mode: push the record, search the current markup again, put the container before the directive and save. */
  method BackupInsertContainer(m: Message, host: Host, record: Record, container: string, regex: Pattern, latest: string)
    modifies m`customImages, m`html, host`saves, host`events
    ensures var before := old(ShownOf(m, host));
            var again := BackupExtract(regex, latest);
            && (again.Some? ==>
                  ShownOf(m, host) == before.(images := Some(OrEmpty(before.images) + [record]),
                                              html := ReplaceFirst(latest, again.value.fullMatch, container + again.value.fullMatch),
                                              events := before.events + [ImgGenerated(m.id)], saves := before.saves + 1))
            && (again.None? ==> ShownOf(m, host) == before.(images := Some(OrEmpty(before.images) + [record]), html := latest))
  {
    m.customImages := Some(OrEmpty(m.customImages) + [record]);
    m.html := latest;
    var again := BackupExtract(regex, latest);
    if again.None? {
      return;
    }
    m.html := ReplaceFirst(latest, again.value.fullMatch, container + again.value.fullMatch);
    host.events := host.events + [ImgGenerated(m.id)];
    host.saves := host.saves + 1;
  }

  /** Inline mode: the URL becomes the message's inline image, the directive's tag content is emptied, and the chat is saved. */
  method BackupInlineImage(m: Message, host: Host, fullMatch: string, url: string)
    modifies m`html, m`image, m`inlineImage, host`saves, host`mediaAppends
    ensures var before := old(ShownOf(m, host));
            ShownOf(m, host) == before.(image := Some(url), inlineImage := true,
                                        html := ReplaceFirst(before.html, fullMatch, EmptyTagText(fullMatch)),
                                        mediaAppends := before.mediaAppends + 1, saves := before.saves + 1)
  {
    m.image := Some(url);
    m.inlineImage := true;
    m.html := ReplaceFirst(m.html, fullMatch, EmptyTagText(fullMatch));
    host.mediaAppends := host.mediaAppends + 1;
    host.saves := host.saves + 1;
  }


  /** The status echo, the workflow switch and `/imagine`, stopping at the first throw; the error thrown, if any. */
  method BackupRunCommands(host: Host, s: Settings, prompt: string, icw: CommandOutcome, imagine: CommandOutcome)
    returns (failure: Option<string>)
    modifies host`commands
    ensures icw.Threw? ==> host.commands == old(host.commands) + [BackupStatus, SwitchWorkflowCommand] && failure == Some(icw.error)
    ensures icw.Returned? ==>
              host.commands == old(host.commands) + [BackupStatus, SwitchWorkflowCommand,
                                                     ImagineCommand(DimensionsFor(s.aspectRatio, s.baseSize), Styled(s, prompt))]
    ensures icw.Returned? ==> failure == if imagine.Threw? then Some(imagine.error) else None
  {
    var command := ImagineCommand(DimensionsFor(s.aspectRatio, s.baseSize), Styled(s, prompt));
    failure := None;
    if icw.Threw? {
      host.commands := host.commands + [BackupStatus, SwitchWorkflowCommand];
      failure := Some(icw.error);
    } else {
      host.commands := host.commands + [BackupStatus, SwitchWorkflowCommand, command];
      if imagine.Threw? {
        failure := Some(imagine.error);
      }
    }
  }

  /**
   * The failure displays: the directive, in the markup read before
   * `/imagine`, is wrapped in an error span, and the original markup is
   * scheduled back; a thrown error also shows a toast.
   */
  method BackupShowFailure(m: Message, host: Host, d: Found, failure: Option<string>) returns (revert: Option<Revert>)
    modifies m`html, host`toasts
    ensures failure.Some? ==>
              && revert == Some(Revert(5000, old(m.html))) && host.toasts == old(host.toasts) + 1
              && m.html == ReplaceFirst(old(m.html), d.fullMatch, ErrorSpan(d.fullMatch, failure.value))
    ensures failure.None? ==>
              && revert == Some(Revert(3000, old(m.html))) && host.toasts == old(host.toasts)
              && m.html == ReplaceFirst(old(m.html), d.fullMatch, FailedSpan(d.fullMatch))
  {
    var original := m.html;
    if failure.Some? {
      host.toasts := host.toasts + 1;
      m.html := ReplaceFirst(original, d.fullMatch, ErrorSpan(d.fullMatch, failure.value));
      revert := Some(Revert(5000, original));
    } else {
      m.html := ReplaceFirst(original, d.fullMatch, FailedSpan(d.fullMatch));
      revert := Some(Revert(3000, original));
    }
  }

  /**
   * `handleCharacterMessage(messageId)` of backup/index.js once the message
   * is known to need generation: with a directive, the status echo, the
   * workflow switch and `/imagine`. A URL is displayed (`BackupDisplayed`);
   * no URL replaces the directive by an error span and schedules the
   * original markup back after 3 s, a throw does the same with the error's
   * message, a toast and 5 s. `latest` is the markup as it is when
   * `/imagine` has returned (other extensions may have changed it).
   */
  method BackupGenerate(m: Message, host: Host, s: Settings, icw: CommandOutcome, imagine: CommandOutcome,
                        latest: string, id: string, now: int) returns (revert: Option<Revert>)
    modifies m`customImages, m`html, m`image, m`inlineImage, host`saves, host`events, host`mediaAppends, host`commands, host`toasts
    ensures BackupGeneration(m, host, s, icw, imagine, latest, id, now, revert)
  {
    revert := None;
    var hit := BackupExtract(s.regex, m.html);
    if hit.None? {
      return;
    }
    revert := BackupGenerateFound(m, host, s, hit.value, icw, imagine, latest, id, now);
  }

  /**
   * The effect of `BackupGenerate` on message `m`: without a directive
   * nothing changes; with one, `BackupGenerated`. Provider requests and the
   * fullscreen viewer are never touched.
   */
  twostate predicate BackupGeneration(m: Message, host: Host, s: Settings, icw: CommandOutcome, imagine: CommandOutcome,
                                      latest: string, id: string, now: int, new revert: Option<Revert>)
    reads m, host
  {
    var hit := BackupExtract(s.regex, old(m.html));
    && host.requests == old(host.requests) && host.fullscreen == old(host.fullscreen)
    && (hit.None? ==>
          revert.None? && MessageKept(m) && ShownOf(m, host) == old(ShownOf(m, host)) && host.commands == old(host.commands))
    && (hit.Some? ==>
          BackupGenerated(old(ShownOf(m, host)), ShownOf(m, host), old(host.commands), host.commands,
                          old(host.toasts), host.toasts, revert, m.id, s, hit.value, icw, imagine, latest, id, now))
  }

  /**
   * What `handleCharacterMessage` does once it has found directive `d`: the
   * commands it issues, then the display of a URL (`BackupDisplayed`), or,
   * on a throw or without a URL, the error span over the directive and the
   * revert of the markup (5 s with a toast after a throw, 3 s otherwise).
   */
  predicate BackupGenerated(before: Shown, after: Shown, commands0: seq<string>, commands: seq<string>, toasts0: nat, toasts: nat,
                            revert: Option<Revert>, messageId: nat, s: Settings, d: Found, icw: CommandOutcome,
                            imagine: CommandOutcome, latest: string, id: string, now: int)
  {
    var command := ImagineCommand(DimensionsFor(s.aspectRatio, s.baseSize), Styled(s, d.prompt));
    var threw := icw.Threw? || imagine.Threw?;
    && (icw.Threw? ==> commands == commands0 + [BackupStatus, SwitchWorkflowCommand])
    && (icw.Returned? ==> commands == commands0 + [BackupStatus, SwitchWorkflowCommand, command])
    && (!threw && PipeUrl(imagine).Some? ==>
          && revert.None? && toasts == toasts0
          && BackupDisplayed(before, after, messageId, s, d, Styled(s, d.prompt), PipeUrl(imagine).value, latest, id, now))
    && (threw || PipeUrl(imagine).None? ==>
          && after.images == before.images && after.image == before.image && after.inlineImage == before.inlineImage
          && after.saves == before.saves && after.events == before.events && after.mediaAppends == before.mediaAppends
          && (threw ==>
                && revert == Some(Revert(5000, before.html)) && toasts == toasts0 + 1
                && after.html == ReplaceFirst(before.html, d.fullMatch,
                                              ErrorSpan(d.fullMatch, if icw.Threw? then icw.error else imagine.error)))
          && (!threw ==>
                && revert == Some(Revert(3000, before.html)) && toasts == toasts0
                && after.html == ReplaceFirst(before.html, d.fullMatch, FailedSpan(d.fullMatch))))
  }

  method BackupGenerateFound(m: Message, host: Host, s: Settings, d: Found, icw: CommandOutcome, imagine: CommandOutcome,
                             latest: string, id: string, now: int) returns (revert: Option<Revert>)
    modifies m`customImages, m`html, m`image, m`inlineImage, host`saves, host`events, host`mediaAppends, host`commands, host`toasts
    ensures BackupGenerated(old(ShownOf(m, host)), ShownOf(m, host), old(host.commands), host.commands,
                            old(host.toasts), host.toasts, revert, m.id, s, d, icw, imagine, latest, id, now)
  {
    var failure := BackupRunCommands(host, s, d.prompt, icw, imagine);
    assert failure.Some? <==> icw.Threw? || imagine.Threw?;
    assert failure.Some? ==> failure.value == if icw.Threw? then icw.error else imagine.error;
    var url := PipeUrl(imagine);
    if failure.Some? || url.None? {
      revert := BackupShowFailure(m, host, d, failure);
      return;
    }
    revert := None;
    BackupDisplay(m, host, s, d, url.value, latest, id, now);
  }

  /**
   * `handleCharacterMessage(messageId)` of backup/index.js: only when enabled
   * and for a character message; a message with records is restored with
   * image-only containers, any other goes to `BackupGenerate`.
   */
  method BackupHandleCharacterMessage(m: Message?, host: Host, s: Settings, stripped: string, icw: CommandOutcome,
                                      imagine: CommandOutcome, latest: string, id: string, now: int)
    returns (revert: Option<Revert>, threw: bool)
    modifies m, host`saves, host`events, host`mediaAppends, host`commands, host`toasts
    ensures !s.enabled || m == null || m.isUser || m.isSystem ==>
              revert.None? && !threw && unchanged(host) && (m != null ==> unchanged(m))
    ensures s.enabled && m != null && !m.isUser && !m.isSystem && old(m.customImages).Some? && s.useCustomContainers ==>
              var st := RestoreAll(old(m.customImages).value, m.id, s.regex, false, stripped);
              && revert.None? && m.html == st.html && host.events == old(host.events) + st.events && threw == st.threw
              && m.customImages == old(m.customImages) && m.image == old(m.image) && m.inlineImage == old(m.inlineImage)
              && host.saves == old(host.saves) && host.toasts == old(host.toasts) && host.mediaAppends == old(host.mediaAppends)
              && host.commands == old(host.commands)
    ensures s.enabled && m != null && !m.isUser && !m.isSystem && !(old(m.customImages).Some? && s.useCustomContainers) ==>
              !threw && BackupGeneration(m, host, s, icw, imagine, latest, id, now, revert)
  {
    revert, threw := None, false;
    if !s.enabled || m == null || m.isUser || m.isSystem {
      return;
    }
    if m.customImages.Some? && s.useCustomContainers {
      threw := RestoreCustomImages(m, host, true, s.regex, false, stripped);
      return;
    }
    revert := BackupGenerate(m, host, s, icw, imagine, latest, id, now);
  }

  // --------------------------------------------------------- regeneration

  /**
   * The `try` of the older `regenerateImage`, from the markup `before` with
   * the refreshed record at `i`: the workflow switch and, unless it threw,
   * `/imagine` with `command`; a URL updates the container (media, `prompt`)
   * and the record (url, time) and saves; a throw or no URL shows an error
   * toast.
   */
  predicate RegenerateTried(before: Regen, after: Regen, i: nat, prompt: string, command: string,
                            icw: CommandOutcome, imagine: CommandOutcome, now: int)
  {
    && before.images.Some? && i < |before.images.value|
    && (icw.Threw? ==>
          after == before.(loading := false, toasts := before.toasts + 1,
                           commands := before.commands + [SwitchWorkflowCommand]))
    && (icw.Returned? ==>
          after == UrlUpdated(before.(commands := before.commands + [SwitchWorkflowCommand, command]), i, prompt,
                              PipeUrl(imagine), now))
  }

  /**
   * The effect of the older `regenerateImage` once record `i` is found and
   * the pattern compiles: the record's prompt is overwritten first
   * (`refreshed`), then the `try` runs with that prompt, styled for
   * `/imagine`.
   */
  predicate BackupRegenerated(before: Regen, after: Regen, i: nat, refreshed: Record, s: Settings,
                              icw: CommandOutcome, imagine: CommandOutcome, now: int)
  {
    && before.images.Some? && i < |before.images.value|
    && RegenerateTried(before.(loading := true, images := Some(before.images.value[i := refreshed])), after, i, refreshed.prompt,
                       ImagineCommand(DimensionsFor(s.aspectRatio, s.baseSize), Styled(s, refreshed.prompt)),
                       icw, imagine, now)
  }

  /** The `try`/`finally` of the older `regenerateImage`: `RegenerateTried`, and the busy flag cleared in every case. */
  method BackupRegenerateTail(c: Container, m: Message, i: nat, prompt: string, command: string, host: Host,
                              icw: CommandOutcome, imagine: CommandOutcome, now: int)
    requires c.owner == m && m.customImages.Some? && i < |m.customImages.value|
    modifies c`src, c`promptText, c`loading, m`customImages, host`saves, host`toasts, host`commands
    ensures RegenerateTried(old(RegenOf(c, host)), RegenOf(c, host), i, prompt, command, icw, imagine, now)
  {
    host.commands := host.commands + [SwitchWorkflowCommand];
    if icw.Threw? {
      host.toasts := host.toasts + 1;
      c.loading := false;
      return;
    }
    host.commands := host.commands + [command];
    UpdateImageUrl(c, i, prompt, PipeUrl(imagine), host, now);
  }

  /** The older `regenerateImage` from the prompt overwrite on. */
  method BackupRegenerateFound(c: Container, m: Message, i: nat, host: Host, s: Settings,
                               icw: CommandOutcome, imagine: CommandOutcome, now: int)
    requires c.owner == m && m.customImages.Some? && i < |m.customImages.value| && s.regex.valid && c.loading
    modifies c`src, c`promptText, c`loading, m`customImages, host`saves, host`toasts, host`commands
    ensures BackupRegenerated(old(RegenOf(c, host)), RegenOf(c, host), i,
                              BackupRefreshed(s.regex, old(m.customImages.value[i]), m.html), s, icw, imagine, now)
  {
    var records := m.customImages.value;
    var r := BackupRefreshed(s.regex, records[i], m.html);
    m.customImages := Some(records[i := r]);
    var command := ImagineCommand(DimensionsFor(s.aspectRatio, s.baseSize), Styled(s, r.prompt));
    BackupRegenerateTail(c, m, i, r.prompt, command, host, icw, imagine, now);
  }

  /** The prompt the older `regenerateImage` uses: group 1 of a match, trimmed, else the stored prompt. */
  function DomPrompt(regex: Pattern, html: string): (p: Option<string>)
    requires regex.valid
  {
    match regex.exec(html)
    case Some(m) => if Truthy(Group(m, 1)) then Some(Trim(Group(m, 1).value)) else None
    case None => None
  }

  /** The record after the prompt overwrite that precedes the `try`. */
  function BackupRefreshed(regex: Pattern, r: Record, html: string): (f: Record)
    requires regex.valid
    ensures f.id == r.id && f.url == r.url && f.timestamp == r.timestamp && f.hidden == r.hidden && f.settings == r.settings
    ensures DomPrompt(regex, html).None? ==> f == r
    ensures DomPrompt(regex, html).Some? ==> f.prompt == f.originalPrompt == DomPrompt(regex, html).value
  {
    match DomPrompt(regex, html)
    case Some(p) => r.(prompt := p, originalPrompt := p)
    case None => r
  }

  /**
   * `regenerateImage(container)` of backup/index.js as written: the pattern
   * is compiled before the `try`, so a pattern that does not compile throws
   * past the `finally` and leaves the container busy for good.
   */
  method BackupRegenerateImageAsWritten(c: Container, host: Host, s: Settings, icw: CommandOutcome,
                                        imagine: CommandOutcome, now: int) returns (threw: bool)
    modifies c`src, c`promptText, c`loading, c.owner, host`saves, host`toasts, host`commands
    ensures threw <==> !old(c.loading) && old(FindImageData(c.owner, c.imageId)).Some? && !s.regex.valid
    ensures threw ==> RegenOf(c, host) == old(RegenOf(c, host)).(loading := true)
    ensures !threw ==> c.loading == old(c.loading)
    ensures OnlyImagesChanged(c.owner)
  {
    threw := false;
    if c.loading {
      return;
    }
    var found := FindImageData(c.owner, c.imageId);
    if found.None? {
      return;
    }
    c.loading := true;
    if !s.regex.valid {
      threw := true;
      return;
    }
    BackupRegenerateFound(c, c.owner, found.value, host, s, icw, imagine, now);
  }

  /**
   * `regenerateImage(container)` of backup/index.js with the pattern compiled
   * inside the `try`, as its `finally` intends: a pattern that does not
   * compile shows an error toast, and the busy flag always ends as it began.
   * The prompt is the trimmed group 1 of a match, else the stored prompt; it
   * is styled again for `/imagine`, which leaves a stored styled prompt's
   * keywords as they are (`Style.StyleIdempotent`).
   */
  method BackupRegenerateImage(c: Container, host: Host, s: Settings, icw: CommandOutcome,
                               imagine: CommandOutcome, now: int)
    modifies c`src, c`promptText, c`loading, c.owner, host`saves, host`toasts, host`commands
    ensures c.loading == old(c.loading)
    ensures OnlyImagesChanged(c.owner)
    ensures old(c.loading) || old(FindImageData(c.owner, c.imageId)).None? ==> RegenOf(c, host) == old(RegenOf(c, host))
    ensures !old(c.loading) && old(FindImageData(c.owner, c.imageId)).Some? && !s.regex.valid ==>
              RegenOf(c, host) == old(RegenOf(c, host)).(toasts := old(host.toasts) + 1)
    ensures !old(c.loading) && old(FindImageData(c.owner, c.imageId)).Some? && s.regex.valid ==>
              var i := old(FindImageData(c.owner, c.imageId)).value;
              BackupRegenerated(old(RegenOf(c, host)), RegenOf(c, host), i,
                                BackupRefreshed(s.regex, old(c.owner.customImages.value[i]), old(c.owner.html)),
                                s, icw, imagine, now)
  {
    if c.loading {
      return;
    }
    var found := FindImageData(c.owner, c.imageId);
    if found.None? {
      return;
    }
    c.loading := true;
    if !s.regex.valid {
      host.toasts := host.toasts + 1;
      c.loading := false;
      return;
    }
    BackupRegenerateFound(c, c.owner, found.value, host, s, icw, imagine, now);
    c.loading := false;
  }
}
