/**
 * The state the extension reads and writes: a chat message (its `extra`
 * fields and the markup of its `.mes_text` element), a media container on
 * the page (its `loading` and `hidden` classes, the media `src` and the
 * prompt text it shows), and the host application, whose calls the model
 * records (`saveChat`, slash commands, provider requests, dispatched events,
 * error toasts, `appendMediaToMessage`, the fullscreen viewer).
 */
module Chat {
  import opened Wrappers
  import opened Extract
  import opened Dispatch
  import opened Media

  /** The extension settings of index.js:36-55 (`ecgStatic*`/`ecgDynamic*` grouped in `ecg`). */
  datatype Settings = Settings(
    enabled: bool, useCustomContainers: bool, regex: Pattern, aspectRatio: string, baseSize: int,
    style: string, negativePrompt: string, useEcg: bool, ecgRegex: Pattern, ecg: EcgSettings)

  /** The `EventImgGenerated` and `EventImgRestored` document events. */
  datatype Event = ImgGenerated(messageId: nat) | ImgRestored(messageId: nat, imageId: string)

  /** What `executeSlashCommandsWithOptions` does: throws, or returns a result whose `pipe` may be missing. */
  datatype CommandOutcome = Threw(error: string) | Returned(pipe: Option<string>)

  /** `result?.pipe` as a truthy URL. */
  function PipeUrl(o: CommandOutcome): Option<string> {
    if o.Returned? && o.pipe.Some? && o.pipe.value != [] then o.pipe else None
  }

  /** A chat message: `context.chat[messageId]` together with the markup of its `.mes_text`. */
  class Message {
    const id: nat
    const isUser: bool
    const isSystem: bool
    /** `extra.custom_images`; `None` when `extra` or the list is missing. */
    var customImages: Option<seq<Record>>
    /** `extra.image` and `extra.inline_image`. */
    var image: Option<string>
    var inlineImage: bool
    /** The HTML of the message's `.mes_text` element. */
    var html: string

    constructor (id: nat, isUser: bool, isSystem: bool, html: string)
      ensures this.id == id && this.isUser == isUser && this.isSystem == isSystem && this.html == html
      ensures customImages.None? && image.None? && !inlineImage
    {
      this.id := id;
      this.isUser := isUser;
      this.isSystem := isSystem;
      this.html := html;
      customImages := None;
      image := None;
      inlineImage := false;
    }
  }

  /** A `.custom-image-container` element on the page. */
  class Container {
    /** `data-image-id`. */
    const imageId: string
    /** The chat message of the enclosing `[mesid]` element; null when there is none or the chat has no such message. */
    const owner: Message?
    var loading: bool
    var hidden: bool
    /** The `src` of the `.custom-image` element and the text of `.prompt-text`. */
    var src: string
    var promptText: string

    constructor (imageId: string, owner: Message?, src: string, promptText: string, hidden: bool)
      ensures this.imageId == imageId && this.owner == owner && this.src == src && this.promptText == promptText
      ensures this.hidden == hidden && !loading
    {
      this.imageId := imageId;
      this.owner := owner;
      this.src := src;
      this.promptText := promptText;
      this.hidden := hidden;
      loading := false;
    }
  }

  /** The host application as the extension sees it: a log of what was asked of it. */
  class Host {
    var saves: nat
    var commands: seq<string>
    var requests: seq<Request>
    var events: seq<Event>
    var toasts: nat
    var mediaAppends: nat
    var fullscreen: Option<string>

    constructor ()
      ensures saves == 0 && commands == [] && requests == [] && events == []
      ensures toasts == 0 && mediaAppends == 0 && fullscreen.None?
    {
      saves := 0;
      commands := [];
      requests := [];
      events := [];
      toasts := 0;
      mediaAppends := 0;
      fullscreen := None;
    }
  }

  /** `findImageData(message, imageId)`: the index of the first record with the id, none without a message or a list. */
  function FindImageData(m: Message?, imageId: string): (r: Option<nat>)
    reads m
    ensures r.Some? ==> m != null && m.customImages.Some? && r.value < |m.customImages.value|
    ensures r.Some? ==> m.customImages.value[r.value].id == imageId
    ensures r.Some? ==> forall j :: 0 <= j < r.value ==> m.customImages.value[j].id != imageId
    ensures r.None? <==> m == null || m.customImages.None?
                         || forall j :: 0 <= j < |m.customImages.value| ==> m.customImages.value[j].id != imageId
  {
    if m == null || m.customImages.None? then None else FindImage(m.customImages.value, imageId)
  }
}
