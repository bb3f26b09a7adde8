/**
 * The operations of index.js that change the chat: generation for a new
 * character message (`handleCharacterMessage`, `handleEcgGeneration`,
 * `handleLegacyGeneration`), the result handler both modes share
 * (`processAndDisplayResult`), the container controls
 * (`handleImageControlClick`, `handlePlaceholderClick`,
 * `updateImageHiddenState`) and in-place regeneration (`regenerateImage`).
 *
 * A provider request is asynchronous: a method that issues one returns it as
 * a `Pending` value, and `OnProviderResult` runs the callback the request
 * carries when the provider answers it.
 */
module Generator {
  import opened Wrappers
  import opened Text
  import opened Dimensions
  import opened Style
  import opened Extract
  import opened Dispatch
  import opened Media
  import opened Chat
  import opened Restore

  // ------------------------------------------------------------- commands

  const SwitchWorkflowCommand := "/icw pony_full.json"
  const EcgStatus := "/echo timeout=10000 Generating image with ECG..."
  const LegacyStatus := "/echo timeout=10000 Generating image..."
  const FailedStatus := "/echo timeout=10000 Generating image failed"

  function ErrorStatus(message: string): string {
    "/echo timeout=10000 Generating image failed: " + message
  }

  /** `/imagine quiet=true width=${width} height=${height} "${prompt}"`; an unreadable ratio prints `NaN`. */
  function ImagineCommand(d: Option<Dims>, prompt: string): (c: string)
    ensures |c| > |prompt| + 1 && c[|c| - |prompt| - 1..|c| - 1] == prompt && c[|c| - 1] == '"'
  {
    var w := if d.Some? then IntToString(d.value.width) else "NaN";
    var h := if d.Some? then IntToString(d.value.height) else "NaN";
    var c := "/imagine quiet=true width=" + w + " height=" + h + " \"" + prompt + "\"";
    assert c[|c| - |prompt| - 1..|c| - 1] == prompt;
    c
  }

  // -------------------------------------------------------- shared pieces

  /** The error toasts of one extraction with the current settings: one when the active pattern does not compile. */
  function PatternToasts(s: Settings): nat {
    InvalidPatternToasts(s.useEcg, s.regex, s.ecgRegex)
  }

  /** `extractImagePromptFromText(html)` with the current settings; a directive means no toast was shown. */
  function Extraction(s: Settings, html: string): (r: Option<Directive>)
    ensures r.Some? ==> PatternToasts(s) == 0
  {
    ToastExcludesDirective(s.useEcg, s.regex, s.ecgRegex, html);
    ExtractImagePrompt(s.useEcg, s.regex, s.ecgRegex, html)
  }

  /** `processPromptWithStyle(prompt)` with the current settings. */
  function Styled(s: Settings, prompt: string): string {
    ProcessPromptWithStyle(prompt, s.style, s.negativePrompt)
  }

  /** `genType || 'txt2img'`. */
  function OrTxt2Img(genType: string): string {
    if genType == [] then "txt2img" else genType
  }

  function Min(a: int, b: int): int {
    if a <= b then a else b
  }

  /** The record `processAndDisplayResult` pushes. */
  function GeneratedRecord(s: Settings, id: string, url: string, originalPrompt: string, finalPrompt: string,
                           genType: string, now: int): Record {
    Record(id, url, finalPrompt, originalPrompt, Some(genType), now,
           RecordSettings(s.aspectRatio, Min(s.ecg.staticWidth, s.ecg.staticHeight),
                          Some(if s.useEcg then "ECG" else "Legacy"), s.style),
           false)
  }

  /** The container made at generation time shows the live settings, not the record's snapshot. */
  function GeneratedView(s: Settings, id: string, url: string, finalPrompt: string): View {
    View(id, url, finalPrompt, s.aspectRatio, s.baseSize, false, IsVideo(url))
  }

  /** `message.extra.custom_images || []`. */
  function OrEmpty(images: Option<seq<Record>>): seq<Record> {
    if images.Some? then images.value else []
  }

  /**
   * The splice on a hit: with a pattern whose matches are pieces of the text,
   * the container goes immediately before the first occurrence of the
   * directive and the directive itself stays, right after the container.
   */
  lemma GenerationSplice(s: Settings, html: string, container: string)
    requires Sound(ActivePattern(s.useEcg, s.regex, s.ecgRegex)) && Extraction(s, html).Some?
    ensures var d := Extraction(s, html).value.fullMatch;
            var i := IndexOf(html, d).value;
            var r := ReplaceFirst(html, d, container + d);
            && r == html[..i] + container + html[i..]
            && OccursAt(r, d, i + |container|)
  {
    var d := Extraction(s, html).value.fullMatch;
    assert Occurs(html, d) by {
      DirectiveOccurs(s.useEcg, s.regex, s.ecgRegex, html);
    }
    InsertBeforeFirst(html, d, container);
  }

  // ------------------------------------------------------ result handling

  /** What `processAndDisplayResult` may change: the message's fields and the host's saves, toasts, events and media appends. */
  datatype Shown = Shown(images: Option<seq<Record>>, html: string, image: Option<string>, inlineImage: bool,
                         saves: nat, toasts: nat, events: seq<Event>, mediaAppends: nat)

  function ShownOf(m: Message, host: Host): Shown
    reads m, host
  {
    Shown(m.customImages, m.html, m.image, m.inlineImage, host.saves, host.toasts, host.events, host.mediaAppends)
  }

  /** The effect of `processAndDisplayResult` on message `messageId`, from `before` to `after`. */
  predicate Displayed(before: Shown, after: Shown, messageId: nat, s: Settings, url: string, originalPrompt: string,
                      finalPrompt: string, genType: string, id: string, now: int)
  {
    && after.saves == before.saves + 1
    && (s.useCustomContainers ==>
          && after.images == Some(OrEmpty(before.images) + [GeneratedRecord(s, id, url, originalPrompt, finalPrompt, genType, now)])
          && after.image == before.image && after.inlineImage == before.inlineImage && after.mediaAppends == before.mediaAppends
          && after.toasts == before.toasts + PatternToasts(s)
          && var hit := Extraction(s, before.html);
             if hit.Some? then
               && after.html == ReplaceFirst(before.html, hit.value.fullMatch,
                                             Render(GeneratedView(s, id, url, finalPrompt)) + hit.value.fullMatch)
               && after.events == before.events + [ImgGenerated(messageId)]
             else after.html == before.html && after.events == before.events)
    && (!s.useCustomContainers ==>
          && after.image == Some(url) && after.inlineImage && after.images == before.images
          && after.html == before.html && after.mediaAppends == before.mediaAppends + 1
          && after.events == before.events && after.toasts == before.toasts)
  }

  /**
   * `processAndDisplayResult(finalUrl, originalPrompt, finalPrompt, messageId, genType)`:
   * in container mode one record is pushed whether or not the directive is
   * still in the markup, and a container is spliced in before it only when
   * it is; otherwise the URL becomes the message's inline image. The chat
   * is saved once in both modes.
   */
  method ProcessAndDisplayResult(m: Message, host: Host, s: Settings, url: string, originalPrompt: string,
                                 finalPrompt: string, genType: string, id: string, now: int)
    modifies m`customImages, m`html, m`image, m`inlineImage, host`saves, host`toasts, host`events, host`mediaAppends
    ensures Displayed(old(ShownOf(m, host)), ShownOf(m, host), m.id, s, url, originalPrompt, finalPrompt, genType, id, now)
  {
    if s.useCustomContainers {
      var record := GeneratedRecord(s, id, url, originalPrompt, finalPrompt, genType, now);
      m.customImages := Some(OrEmpty(m.customImages) + [record]);
      var container := Render(GeneratedView(s, id, url, finalPrompt));
      var hit := Extraction(s, m.html);
      host.toasts := host.toasts + PatternToasts(s);
      if hit.Some? {
        m.html := ReplaceFirst(m.html, hit.value.fullMatch, container + hit.value.fullMatch);
        host.events := host.events + [ImgGenerated(m.id)];
      }
    } else {
      m.image := Some(url);
      m.inlineImage := true;
      host.mediaAppends := host.mediaAppends + 1;
    }
    host.saves := host.saves + 1;
  }

  // ----------------------------------------------------------- hide/show

  /** Nothing of the message but its records changed. */
  twostate predicate OnlyImagesChanged(m: Message?)
    reads m
  {
    m != null ==> m.html == old(m.html) && m.image == old(m.image) && m.inlineImage == old(m.inlineImage)
  }

  /** The effect of `updateImageHiddenState(container, imageId, hidden)`. */
  twostate predicate HiddenSaved(c: Container, host: Host, hidden: bool)
    reads c, c.owner, host
  {
    var m := c.owner;
    if old(FindImageData(m, c.imageId)).Some? then
      m != null && old(m.customImages).Some?
      && m.customImages == Some(WithHidden(old(m.customImages).value, c.imageId, hidden))
      && host.saves == old(host.saves) + 1
    else
      (m != null ==> m.customImages == old(m.customImages)) && host.saves == old(host.saves)
  }

  /**
   * `updateImageHiddenState`: the first record with the container's id gets
   * the flag and the chat is saved; without a message or such a record
   * nothing changes and nothing is saved.
   */
  method UpdateImageHiddenState(c: Container, host: Host, hidden: bool)
    modifies c.owner, host`saves
    ensures HiddenSaved(c, host, hidden) && OnlyImagesChanged(c.owner)
  {
    var found := FindImageData(c.owner, c.imageId);
    if found.Some? {
      c.owner.customImages := Some(WithHidden(c.owner.customImages.value, c.imageId, hidden));
      host.saves := host.saves + 1;
    }
  }

  /** The hide and show actions: the class, then the stored flag. */
  method SetHidden(c: Container, host: Host, hidden: bool)
    modifies c`hidden, c.owner, host`saves
    ensures c.hidden == hidden && HiddenSaved(c, host, hidden) && OnlyImagesChanged(c.owner)
  {
    c.hidden := hidden;
    UpdateImageHiddenState(c, host, hidden);
  }

  /** `handlePlaceholderClick`: shows the container and stores the flag, whether or not it is loading. */
  method HandlePlaceholderClick(c: Container, host: Host)
    modifies c`hidden, c.owner, host`saves
    ensures !c.hidden && HiddenSaved(c, host, false) && OnlyImagesChanged(c.owner)
  {
    c.hidden := false;
    UpdateImageHiddenState(c, host, false);
  }

  // --------------------------------------------------------- regeneration

  /** The `data-action` of a control button. */
  datatype Action = Hide | Show | Fullscreen | Regenerate | OtherAction

  /** Who waits for a provider request: a regenerating container, or a new generation for a message. */
  datatype Job =
    | Regeneration(container: Container, index: nat, prompt: string)
    | Generation(message: Message, originalPrompt: string, finalPrompt: string, genType: string)

  /** An issued provider request and the job its callback completes. */
  datatype Pending = Pending(job: Job, request: Request)

  /** What `regenerateImage` settles on before generating: prompt, type, dialogue and the updated record. */
  datatype Refresh = Refresh(prompt: string, genType: string, charDialogue: string, record: Record)

  /**
   * A directive with a non-empty prompt in the markup overrides the stored
   * prompt: the record gets the styled prompt, the raw prompt and the type.
   * Otherwise the stored prompt is used as it is, unstyled.
   */
  function RefreshFromMarkup(s: Settings, r: Record, html: string): Refresh {
    var hit := Extraction(s, html);
    var dialogue := if hit.Some? then hit.value.charDialogue else "";
    if hit.Some? && hit.value.prompt != [] then
      var prompt := Styled(s, hit.value.prompt);
      var genType := OrTxt2Img(hit.value.genType);
      Refresh(prompt, genType, dialogue, r.(prompt := prompt, originalPrompt := hit.value.prompt, genType := Some(genType)))
    else
      Refresh(r.prompt, OrTxt2Img(if r.genType.Some? then r.genType.value else ""), dialogue, r)
  }

  /** The refresh touches the prompt fields and the type only; the record keeps its id, media, time, snapshot and flag. */
  lemma RefreshKeepsRecord(s: Settings, r: Record, html: string)
    ensures var f := RefreshFromMarkup(s, r, html);
            && f.record.id == r.id && f.record.url == r.url && f.record.timestamp == r.timestamp
            && f.record.settings == r.settings && f.record.hidden == r.hidden
            && f.record.prompt == f.prompt && f.genType != []
            && (f.record != r ==> Extraction(s, html).Some? && Extraction(s, html).value.prompt != [])
  {
  }

  /** Regenerating again from the same markup settles on the same prompt and leaves the record as it is. */
  lemma RefreshStable(s: Settings, r: Record, html: string)
    ensures var f := RefreshFromMarkup(s, r, html);
            RefreshFromMarkup(s, f.record, html) == f
  {
    var hit := Extraction(s, html);
    if !(hit.Some? && hit.value.prompt != []) {
      var f := RefreshFromMarkup(s, r, html);
      assert f.record == r;
    }
  }

  /** The record after a regeneration that returned `url` at time `now`. */
  function Regenerated(r: Record, url: string, now: int): Record {
    r.(url := url, timestamp := now)
  }

  /** What regeneration may change: the container's busy flag, media and prompt, the records, and the host's log. */
  datatype Regen = Regen(loading: bool, src: string, promptText: string, images: Option<seq<Record>>,
                         saves: nat, toasts: nat, commands: seq<string>, requests: seq<Request>)

  function RegenOf(c: Container, host: Host): Regen
    reads c, c.owner, host
  {
    Regen(c.loading, c.src, c.promptText, if c.owner == null then None else c.owner.customImages,
          host.saves, host.toasts, host.commands, host.requests)
  }

  /**
   * The state after `updateImageUrl(url)` on record `index`: a non-empty URL
   * goes into the container and into the record, with the prompt shown and
   * a new timestamp, and the chat is saved; otherwise an error toast. The
   * busy flag is cleared either way.
   */
  function UrlUpdated(before: Regen, index: nat, prompt: string, url: Option<string>, now: int): (after: Regen)
    requires before.images.Some? && index < |before.images.value|
    ensures !after.loading && after.commands == before.commands && after.requests == before.requests
    ensures after.images.Some? && |after.images.value| == |before.images.value|
    ensures forall j :: 0 <= j < |before.images.value| && j != index ==> after.images.value[j] == before.images.value[j]
    ensures url.Some? && url.value != [] ==>
              && after.src == url.value && after.images.value[index] == Regenerated(before.images.value[index], url.value, now)
              && after.saves == before.saves + 1 && after.toasts == before.toasts
    ensures !(url.Some? && url.value != []) ==>
              && after.images == before.images && after.src == before.src && after.saves == before.saves
              && after.toasts == before.toasts + 1
  {
    if url.Some? && url.value != [] then
      var records := before.images.value;
      before.(loading := false, src := url.value, promptText := prompt,
              images := Some(records[index := Regenerated(records[index], url.value, now)]), saves := before.saves + 1)
    else before.(loading := false, toasts := before.toasts + 1)
  }

  /** `updateImageUrl(newImageUrl)` on the container `c` and record `index`. */
  method UpdateImageUrl(c: Container, index: nat, prompt: string, url: Option<string>, host: Host, now: int)
    requires c.owner != null && c.owner.customImages.Some? && index < |c.owner.customImages.value|
    modifies c`src, c`promptText, c`loading, c.owner`customImages, host`saves, host`toasts
    ensures RegenOf(c, host) == UrlUpdated(old(RegenOf(c, host)), index, prompt, url, now)
  {
    if url.Some? && url.value != [] {
      c.src := url.value;
      c.promptText := prompt;
      var records := c.owner.customImages.value;
      c.owner.customImages := Some(records[index := Regenerated(records[index], url.value, now)]);
      host.saves := host.saves + 1;
    } else {
      host.toasts := host.toasts + 1;
    }
    c.loading := false;
  }

  /**
   * The ECG branch of `regenerateImage` from the busy, refreshed state
   * `before`: a request is issued and awaited (the flag stays set), or the
   * unknown type ends it and the flag is cleared.
   */
  predicate EcgRegenerated(before: Regen, after: Regen, pending: Option<Pending>, c: Container, i: nat, prompt: string,
                           step: Step)
  {
    && (step.Issue? ==>
          && pending == Some(Pending(Regeneration(c, i, prompt), step.request))
          && after == before.(requests := before.requests + [step.request]))
    && (step.Deliver? ==> pending.None? && after == before.(loading := false))
  }

  /**
   * The legacy branch of `regenerateImage` from the busy, refreshed state
   * `before`: the workflow switch, then `/imagine` with `command`, then
   * `updateImageUrl`; a command that throws leaves the flag set.
   */
  predicate LegacyRegenerated(before: Regen, after: Regen, i: nat, prompt: string, command: string,
                              icw: CommandOutcome, imagine: CommandOutcome, now: int)
  {
    && before.images.Some? && i < |before.images.value|
    && (icw.Threw? ==> after == before.(commands := before.commands + [SwitchWorkflowCommand]))
    && (icw.Returned? && imagine.Threw? ==>
          after == before.(commands := before.commands + [SwitchWorkflowCommand, command]))
    && (icw.Returned? && imagine.Returned? ==>
          after == UrlUpdated(before.(commands := before.commands + [SwitchWorkflowCommand, command]), i, prompt,
                              PipeUrl(imagine), now))
  }

  /**
   * `regenerateImage` once record `i` of message `messageId` is found, from
   * the idle state `before`: the container becomes busy, the record is
   * refreshed from the markup (`f`, its extraction showing the toast of a
   * pattern that does not compile), and the ECG or the legacy branch runs.
   */
  predicate RegeneratedFrom(before: Regen, after: Regen, pending: Option<Pending>, c: Container, i: nat, f: Refresh,
                            messageId: nat, s: Settings, characterName: string, icw: CommandOutcome,
                            imagine: CommandOutcome, now: int)
  {
    && before.images.Some? && i < |before.images.value|
    && RouteRan(Busy(before, i, f, s), after, pending, c, i, f, messageId, s, characterName, icw, imagine, now)
  }

  /** The busy container with the refreshed record `i`, after the re-extraction's toast. */
  function Busy(before: Regen, i: nat, f: Refresh, s: Settings): Regen
    requires before.images.Some? && i < |before.images.value|
  {
    before.(loading := true, images := Some(before.images.value[i := f.record]), toasts := before.toasts + PatternToasts(s))
  }

  /** From the busy state, the mode's route: the ECG request, or the switch and `/imagine`. */
  predicate RouteRan(busy: Regen, after: Regen, pending: Option<Pending>, c: Container, i: nat, f: Refresh,
                     messageId: nat, s: Settings, characterName: string, icw: CommandOutcome,
                     imagine: CommandOutcome, now: int)
  {
    && (s.useEcg ==>
          EcgRegenerated(busy, after, pending, c, i, f.prompt,
                         GenerateWithEcg(s.ecg, f.genType, f.prompt, characterName, f.charDialogue, messageId)))
    && (!s.useEcg ==>
          && pending.None?
          && LegacyRegenerated(busy, after, i, f.prompt, ImagineCommand(DimensionsFor(s.aspectRatio, s.baseSize), f.prompt),
                               icw, imagine, now))
  }

  /**
   * The effect of `regenerateImage(container)`, from the state before the
   * click: `found` is the position of the container's record then, `html`
   * the message markup then.
   */
  predicate RegenerationEffect(before: Regen, after: Regen, pending: Option<Pending>, c: Container, found: Option<nat>,
                               html: string, messageId: nat, s: Settings, characterName: string,
                               icw: CommandOutcome, imagine: CommandOutcome, now: int)
  {
    && (before.loading || found.None? ==> pending.None? && after == before)
    && (!before.loading && found.Some? ==>
          && before.images.Some? && found.value < |before.images.value|
          && RegeneratedFrom(before, after, pending, c, found.value,
                             RefreshFromMarkup(s, before.images.value[found.value], html),
                             messageId, s, characterName, icw, imagine, now))
  }

  /** The markup and the id of a container's message, or defaults when there is none. */
  function HtmlOf(m: Message?): string
    reads m
  {
    if m == null then "" else m.html
  }

  function IdOf(m: Message?): nat {
    if m == null then 0 else m.id
  }

  /**
   * `regenerateImage(container)`. A busy container, or one without a stored
   * record, is left alone. Otherwise the container becomes busy and the
   * record is refreshed from the markup; then in ECG mode the request is
   * routed by type (an unknown type clears the busy flag at once), and in
   * legacy mode the workflow is switched and `/imagine` run. A slash command
   * that throws leaves the container busy.
   */
  method RegenerateImage(c: Container, host: Host, s: Settings, characterName: string,
                         icw: CommandOutcome, imagine: CommandOutcome, now: int) returns (pending: Option<Pending>)
    modifies c`src, c`promptText, c`loading, c.owner, host`saves, host`toasts, host`commands, host`requests
    ensures RegenerationEffect(old(RegenOf(c, host)), RegenOf(c, host), pending, c, old(FindImageData(c.owner, c.imageId)),
                               old(HtmlOf(c.owner)), IdOf(c.owner), s, characterName, icw, imagine, now)
    ensures OnlyImagesChanged(c.owner)
  {
    pending := None;
    if c.loading {
      return;
    }
    var found := FindImageData(c.owner, c.imageId);
    if found.None? {
      return;
    }
    pending := RegenerateFound(c, c.owner, found.value, host, s, characterName, icw, imagine, now);
  }

  /** `regenerateImage` once record `i` of the container's message `m` is found. */
  method RegenerateFound(c: Container, m: Message, i: nat, host: Host, s: Settings, characterName: string,
                         icw: CommandOutcome, imagine: CommandOutcome, now: int) returns (pending: Option<Pending>)
    requires c.owner == m && m.customImages.Some? && i < |m.customImages.value|
    modifies c`src, c`promptText, c`loading, m`customImages, host`saves, host`toasts, host`commands, host`requests
    ensures RegeneratedFrom(old(RegenOf(c, host)), RegenOf(c, host), pending, c, i,
                            RefreshFromMarkup(s, old(m.customImages.value[i]), m.html), m.id, s, characterName,
                            icw, imagine, now)
  {
    var records := m.customImages.value;
    var f := RefreshFromMarkup(s, records[i], m.html);
    ghost var busy := Busy(RegenOf(c, host), i, f, s);
    c.loading := true;
    host.toasts := host.toasts + PatternToasts(s);
    m.customImages := Some(records[i := f.record]);
    assert RegenOf(c, host) == busy;
    pending := RunRoute(c, i, f, m.id, host, s, characterName, icw, imagine, now);
  }

  /** The route of the configured mode, run from the busy state. */
  method RunRoute(c: Container, i: nat, f: Refresh, messageId: nat, host: Host, s: Settings, characterName: string,
                  icw: CommandOutcome, imagine: CommandOutcome, now: int) returns (pending: Option<Pending>)
    requires c.owner != null && c.owner.customImages.Some? && i < |c.owner.customImages.value|
    modifies c`src, c`promptText, c`loading, c.owner`customImages, host`saves, host`toasts, host`commands, host`requests
    ensures RouteRan(old(RegenOf(c, host)), RegenOf(c, host), pending, c, i, f, messageId, s, characterName, icw, imagine, now)
  {
    if s.useEcg {
      var step := GenerateWithEcg(s.ecg, f.genType, f.prompt, characterName, f.charDialogue, messageId);
      pending := RegenerateWithEcg(c, i, f.prompt, step, host);
    } else {
      pending := None;
      var command := ImagineCommand(DimensionsFor(s.aspectRatio, s.baseSize), f.prompt);
      RegenerateWithImagine(c, i, f.prompt, command, host, icw, imagine, now);
    }
  }

  /** The ECG branch: issue the routed request, or clear the busy flag when the type is unknown. */
  method RegenerateWithEcg(c: Container, i: nat, prompt: string, step: Step, host: Host) returns (pending: Option<Pending>)
    modifies c`loading, host`requests
    ensures EcgRegenerated(old(RegenOf(c, host)), RegenOf(c, host), pending, c, i, prompt, step)
  {
    match step
    case Issue(r) =>
      host.requests := host.requests + [r];
      pending := Some(Pending(Regeneration(c, i, prompt), r));
    case Deliver(_) =>
      pending := None;
      c.loading := false;
  }

  /** The legacy branch: the workflow switch, `/imagine`, then `updateImageUrl`, stopping at a throw. */
  method RegenerateWithImagine(c: Container, i: nat, prompt: string, command: string, host: Host,
                               icw: CommandOutcome, imagine: CommandOutcome, now: int)
    requires c.owner != null && c.owner.customImages.Some? && i < |c.owner.customImages.value|
    modifies c`src, c`promptText, c`loading, c.owner`customImages, host`saves, host`toasts, host`commands
    ensures LegacyRegenerated(old(RegenOf(c, host)), RegenOf(c, host), i, prompt, command, icw, imagine, now)
  {
    host.commands := host.commands + [SwitchWorkflowCommand];
    if icw.Threw? {
      return;
    }
    host.commands := host.commands + [command];
    if imagine.Threw? {
      return;
    }
    UpdateImageUrl(c, i, prompt, PipeUrl(imagine), host, now);
  }

  /** The host's command, request, toast and fullscreen logs are as they were. */
  twostate predicate LogsKept(host: Host)
    reads host
  {
    && host.commands == old(host.commands) && host.requests == old(host.requests)
    && host.toasts == old(host.toasts) && host.fullscreen == old(host.fullscreen)
  }

  /**
   * `handleImageControlClick`: nothing at all happens on a busy container;
   * otherwise hide and show set the class and store the flag, fullscreen
   * opens the media URL, and regenerate runs `RegenerateImage`.
   */
  method HandleImageControlClick(c: Container, host: Host, action: Action, s: Settings, characterName: string,
                                 icw: CommandOutcome, imagine: CommandOutcome, now: int) returns (pending: Option<Pending>)
    modifies c`hidden, c`src, c`promptText, c`loading, c.owner
    modifies host`saves, host`toasts, host`commands, host`requests, host`fullscreen
    ensures old(c.loading) ==>
              pending.None? && unchanged(c) && unchanged(host) && (c.owner != null ==> unchanged(c.owner))
    ensures !old(c.loading) && (action == Hide || action == Show) ==>
              && pending.None? && c.hidden == (action == Hide) && !c.loading
              && c.src == old(c.src) && c.promptText == old(c.promptText) && LogsKept(host)
              && HiddenSaved(c, host, action == Hide) && OnlyImagesChanged(c.owner)
    ensures !old(c.loading) && action == Fullscreen ==>
              && pending.None? && host.fullscreen == Some(c.src) && unchanged(c)
              && (c.owner != null ==> unchanged(c.owner)) && host.saves == old(host.saves)
              && host.commands == old(host.commands) && host.requests == old(host.requests) && host.toasts == old(host.toasts)
    ensures !old(c.loading) && action == Regenerate ==>
              && RegenerationEffect(old(RegenOf(c, host)), RegenOf(c, host), pending, c, old(FindImageData(c.owner, c.imageId)),
                                    old(HtmlOf(c.owner)), IdOf(c.owner), s, characterName, icw, imagine, now)
              && OnlyImagesChanged(c.owner)
              && c.hidden == old(c.hidden) && host.fullscreen == old(host.fullscreen)
    ensures !old(c.loading) && action == OtherAction ==>
              pending.None? && unchanged(c) && unchanged(host) && (c.owner != null ==> unchanged(c.owner))
  {
    pending := None;
    if c.loading {
      return;
    }
    if action == Regenerate {
      pending := RegenerateImage(c, host, s, characterName, icw, imagine, now);
    } else {
      ControlAction(c, host, action);
    }
  }

  /** The actions of `handleImageControlClick` other than regenerate, on an idle container. */
  method ControlAction(c: Container, host: Host, action: Action)
    requires action != Regenerate
    modifies c`hidden, c.owner, host`saves, host`fullscreen
    ensures action == Hide || action == Show ==>
              && c.hidden == (action == Hide) && host.fullscreen == old(host.fullscreen)
              && HiddenSaved(c, host, action == Hide) && OnlyImagesChanged(c.owner)
    ensures action == Fullscreen ==>
              && host.fullscreen == Some(c.src) && unchanged(c)
              && (c.owner != null ==> unchanged(c.owner)) && host.saves == old(host.saves)
    ensures action == OtherAction ==>
              unchanged(c) && unchanged(host) && (c.owner != null ==> unchanged(c.owner))
  {
    match action
    case Hide =>
      SetHidden(c, host, true);
    case Show =>
      SetHidden(c, host, false);
    case Fullscreen =>
      host.fullscreen := Some(c.src);
    case OtherAction =>
  }

  // ----------------------------------------------------------- generation

  /** Every field of the message is as it was. */
  twostate predicate MessageKept(m: Message)
    reads m
  {
    && m.customImages == old(m.customImages) && m.html == old(m.html)
    && m.image == old(m.image) && m.inlineImage == old(m.inlineImage)
  }

  /**
   * The effect of `handleEcgGeneration` on message `m`: the extraction's
   * toast for a pattern that does not compile; with a directive, the status
   * echo and the first request of the chain for its type, styled prompt and
   * dialogue, awaited as a `Generation` job (an unknown type ends there, the
   * error only logged). The message and the other logs are untouched.
   */
  twostate predicate EcgGenerated(m: Message, host: Host, s: Settings, characterName: string, new pending: Option<Pending>)
    reads m, host
  {
    var hit := Extraction(s, old(m.html));
    && MessageKept(m)
    && host.toasts == old(host.toasts) + PatternToasts(s)
    && host.saves == old(host.saves) && host.events == old(host.events) && host.mediaAppends == old(host.mediaAppends)
    && host.fullscreen == old(host.fullscreen)
    && (hit.None? ==> pending.None? && host.commands == old(host.commands) && host.requests == old(host.requests))
    && (hit.Some? ==>
          EcgFromDirective(old(host.commands), host.commands, old(host.requests), host.requests, pending,
                           m, s, characterName, hit.value))
  }

  /**
   * `handleEcgGeneration` once directive `d` is found, from command log
   * `commands` and request log `requests` to `commands'` and `requests'`:
   * the status echo, then the first request of the chain for the directive's
   * type, styled prompt and dialogue, awaited as a `Generation` job; an
   * unknown type issues nothing.
   */
  predicate EcgFromDirective(commands: seq<string>, commands': seq<string>, requests: seq<Request>, requests': seq<Request>,
                             pending: Option<Pending>, m: Message, s: Settings, characterName: string, d: Directive)
  {
    var finalPrompt := Styled(s, d.prompt);
    var step := GenerateWithEcg(s.ecg, d.genType, finalPrompt, characterName, d.charDialogue, m.id);
    && commands' == commands + [EcgStatus]
    && (step.Issue? ==>
          && requests' == requests + [step.request]
          && pending == Some(Pending(Generation(m, d.prompt, finalPrompt, d.genType), step.request)))
    && (step.Deliver? ==> pending.None? && requests' == requests)
  }

  /** `handleEcgGeneration(messageId, message)`. */
  method HandleEcgGeneration(m: Message, host: Host, s: Settings, characterName: string) returns (pending: Option<Pending>)
    modifies host`commands, host`requests, host`toasts
    ensures EcgGenerated(m, host, s, characterName, pending)
  {
    pending := None;
    var hit := Extraction(s, m.html);
    if hit.None? {
      host.toasts := host.toasts + PatternToasts(s);
      return;
    }
    pending := EcgFound(m, host, s, characterName, hit.value);
  }

  /** The body of `handleEcgGeneration` after the extraction found `d`. */
  method EcgFound(m: Message, host: Host, s: Settings, characterName: string, d: Directive) returns (pending: Option<Pending>)
    modifies host`commands, host`requests
    ensures EcgFromDirective(old(host.commands), host.commands, old(host.requests), host.requests, pending,
                             m, s, characterName, d)
  {
    pending := None;
    var finalPrompt := Styled(s, d.prompt);
    host.commands := host.commands + [EcgStatus];
    var step := GenerateWithEcg(s.ecg, d.genType, finalPrompt, characterName, d.charDialogue, m.id);
    if step.Issue? {
      host.requests := host.requests + [step.request];
      pending := Some(Pending(Generation(m, d.prompt, finalPrompt, d.genType), step.request));
    }
  }

  /**
   * The effect of `handleLegacyGeneration` on message `m`: the extraction's
   * toast for a pattern that does not compile and nothing else without a
   * directive; with directive `d`, `LegacyFromDirective`.
   */
  twostate predicate LegacyGenerated(m: Message, host: Host, s: Settings, imagine: CommandOutcome, id: string, now: int)
    reads m, host
  {
    var hit := Extraction(s, old(m.html));
    && host.requests == old(host.requests) && host.fullscreen == old(host.fullscreen)
    && (hit.None? ==>
          && MessageKept(m) && host.toasts == old(host.toasts) + PatternToasts(s)
          && host.saves == old(host.saves) && host.events == old(host.events)
          && host.mediaAppends == old(host.mediaAppends) && host.commands == old(host.commands))
    && (hit.Some? ==>
          && PatternToasts(s) == 0
          && LegacyFromDirective(old(ShownOf(m, host)), ShownOf(m, host), old(host.commands), host.commands,
                                 m.id, s, hit.value, imagine, id, now))
  }

  /**
   * `handleLegacyGeneration` once directive `d` is found, from the message
   * and host `before` with command log `commands` to `after` with
   * `commands'`: the status echo and `/imagine` with the styled prompt and
   * the computed size; a URL is displayed (`Displayed`), no URL echoes the
   * failure and a throw echoes its message, the message and what is shown
   * then left as they were.
   */
  predicate LegacyFromDirective(before: Shown, after: Shown, commands: seq<string>, commands': seq<string>, messageId: nat,
                                s: Settings, d: Directive, imagine: CommandOutcome, id: string, now: int)
  {
    var finalPrompt := Styled(s, d.prompt);
    var sent := commands + [LegacyStatus, ImagineCommand(DimensionsFor(s.aspectRatio, s.baseSize), finalPrompt)];
    && (PipeUrl(imagine).Some? ==>
          && commands' == sent
          && Displayed(before, after, messageId, s, PipeUrl(imagine).value, d.prompt, finalPrompt, d.genType, id, now))
    && (PipeUrl(imagine).None? ==>
          && after == before
          && commands' == sent + [if imagine.Threw? then ErrorStatus(imagine.error) else FailedStatus])
  }

  /** `handleLegacyGeneration(messageId, message)`. */
  method HandleLegacyGeneration(m: Message, host: Host, s: Settings, imagine: CommandOutcome, id: string, now: int)
    modifies m`customImages, m`html, m`image, m`inlineImage
    modifies host`saves, host`toasts, host`events, host`mediaAppends, host`commands
    ensures LegacyGenerated(m, host, s, imagine, id, now)
  {
    var hit := Extraction(s, m.html);
    if hit.None? {
      host.toasts := host.toasts + PatternToasts(s);
      return;
    }
    LegacyFound(m, host, s, hit.value, imagine, id, now);
  }

  /** The body of `handleLegacyGeneration` after the extraction found `d`. */
  method LegacyFound(m: Message, host: Host, s: Settings, d: Directive, imagine: CommandOutcome, id: string, now: int)
    modifies m`customImages, m`html, m`image, m`inlineImage
    modifies host`saves, host`toasts, host`events, host`mediaAppends, host`commands
    ensures LegacyFromDirective(old(ShownOf(m, host)), ShownOf(m, host), old(host.commands), host.commands,
                                m.id, s, d, imagine, id, now)
  {
    var finalPrompt := Styled(s, d.prompt);
    var command := ImagineCommand(DimensionsFor(s.aspectRatio, s.baseSize), finalPrompt);
    ghost var before := ShownOf(m, host);
    host.commands := host.commands + [LegacyStatus, command];
    assert ShownOf(m, host) == before;
    FinishLegacyGeneration(m, host, s, imagine, d, finalPrompt, id, now);
  }

  /** The second half of `handleLegacyGeneration`: what follows the `/imagine` call. */
  method FinishLegacyGeneration(m: Message, host: Host, s: Settings, imagine: CommandOutcome, d: Directive,
                                finalPrompt: string, id: string, now: int)
    modifies m`customImages, m`html, m`image, m`inlineImage
    modifies host`saves, host`toasts, host`events, host`mediaAppends, host`commands
    ensures PipeUrl(imagine).Some? ==>
              && host.commands == old(host.commands)
              && Displayed(old(ShownOf(m, host)), ShownOf(m, host), m.id, s, PipeUrl(imagine).value,
                           d.prompt, finalPrompt, d.genType, id, now)
    ensures PipeUrl(imagine).None? ==>
              && ShownOf(m, host) == old(ShownOf(m, host))
              && host.commands == old(host.commands) + [if imagine.Threw? then ErrorStatus(imagine.error) else FailedStatus]
  {
    var url := PipeUrl(imagine);
    if imagine.Threw? {
      host.commands := host.commands + [ErrorStatus(imagine.error)];
    } else if url.Some? {
      ProcessAndDisplayResult(m, host, s, url.value, d.prompt, finalPrompt, d.genType, id, now);
    } else {
      host.commands := host.commands + [FailedStatus];
    }
  }

  /**
   * `handleCharacterMessage(messageId)`: only when enabled and for a
   * character message; a message that already has records is restored
   * (with the legacy pattern, in either mode) instead of generated for;
   * otherwise generation in the configured mode.
   */
  method HandleCharacterMessage(m: Message?, host: Host, s: Settings, characterName: string, stripped: string,
                                imagine: CommandOutcome, id: string, now: int) returns (pending: Option<Pending>, threw: bool)
    modifies m, host`saves, host`toasts, host`events, host`mediaAppends, host`commands, host`requests
    ensures !s.enabled || m == null || m.isUser || m.isSystem ==>
              pending.None? && !threw && unchanged(host) && (m != null ==> unchanged(m))
    ensures s.enabled && m != null && !m.isUser && !m.isSystem && old(m.customImages).Some? && s.useCustomContainers ==>
              var st := RestoreAll(old(m.customImages).value, m.id, s.regex, true, stripped);
              && pending.None? && m.html == st.html && host.events == old(host.events) + st.events && threw == st.threw
              && m.customImages == old(m.customImages) && m.image == old(m.image) && m.inlineImage == old(m.inlineImage)
              && host.saves == old(host.saves) && host.toasts == old(host.toasts) && host.mediaAppends == old(host.mediaAppends)
              && host.commands == old(host.commands) && host.requests == old(host.requests)
    ensures s.enabled && m != null && !m.isUser && !m.isSystem && !(old(m.customImages).Some? && s.useCustomContainers) ==>
              && !threw
              && (s.useEcg ==> EcgGenerated(m, host, s, characterName, pending))
              && (!s.useEcg ==> pending.None? && LegacyGenerated(m, host, s, imagine, id, now))
  {
    pending, threw := None, false;
    if !s.enabled || m == null || m.isUser || m.isSystem {
      return;
    }
    if m.customImages.Some? && s.useCustomContainers {
      threw := RestoreCustomImages(m, host, true, s.regex, true, stripped);
      return;
    }
    if s.useEcg {
      pending := HandleEcgGeneration(m, host, s, characterName);
    } else {
      HandleLegacyGeneration(m, host, s, imagine, id, now);
    }
  }

  /**
   * The provider answers the request of `p`: the chain goes on with the
   * video request, or the job's callback runs. A regeneration clears the
   * busy flag on an error and updates the media on success; a new
   * generation only logs an error and displays a success. No slash command
   * is run and the fullscreen viewer is not touched.
   */
  method OnProviderResult(p: Pending, outcome: Outcome, host: Host, s: Settings, id: string, now: int)
    returns (next: Option<Pending>)
    requires p.job.Regeneration? ==>
               var o := p.job.container.owner;
               o != null && o.customImages.Some? && p.job.index < |o.customImages.value|
    modifies if p.job.Regeneration? then {p.job.container, p.job.container.owner} else {p.job.message}, host
    ensures host.commands == old(host.commands) && host.fullscreen == old(host.fullscreen)
    ensures var step := OnProviderComplete(s.ecg, p.request, outcome);
            && (step.Issue? ==>
                  && next == Some(Pending(p.job, step.request)) && host.requests == old(host.requests) + [step.request]
                  && host.saves == old(host.saves) && host.toasts == old(host.toasts)
                  && host.events == old(host.events) && host.mediaAppends == old(host.mediaAppends)
                  && (p.job.Regeneration? ==> unchanged(p.job.container) && unchanged(p.job.container.owner))
                  && (p.job.Generation? ==> unchanged(p.job.message)))
            && (step.Deliver? ==> next.None? && host.requests == old(host.requests))
            && (step.Deliver? && p.job.Regeneration? ==>
                  var c := p.job.container;
                  && OnlyImagesChanged(c.owner) && c.hidden == old(c.hidden)
                  && host.events == old(host.events) && host.mediaAppends == old(host.mediaAppends))
            && (step.Deliver? && p.job.Regeneration? && step.outcome.Failed? ==>
                  var c := p.job.container;
                  RegenOf(c, host) == old(RegenOf(c, host)).(loading := false))
            && (step.Deliver? && p.job.Regeneration? && step.outcome.Succeeded? ==>
                  var c := p.job.container;
                  RegenOf(c, host) == UrlUpdated(old(RegenOf(c, host)), p.job.index, p.job.prompt, Some(step.outcome.url), now))
            && (step.Deliver? && p.job.Generation? && outcome.Failed? ==>
                  unchanged(p.job.message) && ShownOf(p.job.message, host) == old(ShownOf(p.job.message, host)))
            && (step.Deliver? && p.job.Generation? && outcome.Succeeded? ==>
                  var j := p.job;
                  Displayed(old(ShownOf(j.message, host)), ShownOf(j.message, host), j.message.id, s, outcome.url,
                            j.originalPrompt, j.finalPrompt, j.genType, id, now))
  {
    next := None;
    var step := OnProviderComplete(s.ecg, p.request, outcome);
    match step
    case Issue(r) =>
      host.requests := host.requests + [r];
      next := Some(Pending(p.job, r));
    case Deliver(o) =>
      match p.job
      case Regeneration(c, i, prompt) =>
        DeliverRegeneration(c, i, prompt, o, host, now);
      case Generation(m, originalPrompt, finalPrompt, genType) =>
        if o.Succeeded? {
          ProcessAndDisplayResult(m, host, s, o.url, originalPrompt, finalPrompt, genType, id, now);
        }
  }

  /** The regeneration callback: an error clears the busy flag, a URL goes through `updateImageUrl`. */
  method DeliverRegeneration(c: Container, i: nat, prompt: string, o: Outcome, host: Host, now: int)
    requires c.owner != null && c.owner.customImages.Some? && i < |c.owner.customImages.value|
    modifies c`src, c`promptText, c`loading, c.owner`customImages, host`saves, host`toasts
    ensures o.Failed? ==> RegenOf(c, host) == old(RegenOf(c, host)).(loading := false)
    ensures o.Succeeded? ==> RegenOf(c, host) == UrlUpdated(old(RegenOf(c, host)), i, prompt, Some(o.url), now)
  {
    if o.Failed? {
      c.loading := false;
    } else {
      UpdateImageUrl(c, i, prompt, Some(o.url), host, now);
    }
  }
}
