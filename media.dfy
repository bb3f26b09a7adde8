/**
 * The per-message media records (`message.extra.custom_images`), the lookup
 * by id (`findImageData`, index.js:196-199), the hidden-flag update they
 * receive, the `.mp4`/`.webm` media-kind test, and the markup of one media
 * container (`createCustomImageContainer`, index.js:349-411), reduced to the
 * parts the extension later reads: its id, its `hidden` class, the media
 * element, the prompt text and the size line.
 */
module Media {
  import opened Wrappers
  import opened Text

  /**
   * The `settings` snapshot stored with a record. `source` is absent in
   * records made by the older version.
   */
  datatype RecordSettings = RecordSettings(aspectRatio: string, baseSize: int, source: Option<string>, style: string)

  /** One entry of `message.extra.custom_images`. `genType` is absent in records made by the older version. */
  datatype Record = Record(
    id: string, url: string, prompt: string, originalPrompt: string, genType: Option<string>,
    timestamp: int, settings: RecordSettings, hidden: bool)

  // ------------------------------------------------------------ lookup

  /** `custom_images.find(img => img.id === imageId)`, as the index of the first record with that id. */
  function FindImage(records: seq<Record>, id: string): (r: Option<nat>)
    ensures r.Some? ==> r.value < |records| && records[r.value].id == id
    ensures r.Some? ==> forall j :: 0 <= j < r.value ==> records[j].id != id
    ensures r.None? <==> forall j :: 0 <= j < |records| ==> records[j].id != id
  {
    if records == [] then None
    else if records[0].id == id then Some(0)
    else match FindImage(records[1..], id)
      case None => None
      case Some(i) => Some(i + 1)
  }

  /** The list after `imageData.hidden = hidden` on the record `findImageData` finds, if any. */
  function WithHidden(records: seq<Record>, id: string, hidden: bool): seq<Record> {
    match FindImage(records, id)
    case None => records
    case Some(i) => records[i := records[i].(hidden := hidden)]
  }

  /**
   * Hiding or showing touches one record only, the first with the id, and
   * only its flag; without such a record nothing changes.
   */
  lemma WithHiddenFrame(records: seq<Record>, id: string, hidden: bool)
    ensures var r := WithHidden(records, id, hidden);
            && |r| == |records|
            && (forall j :: 0 <= j < |r| ==> r[j].(hidden := records[j].hidden) == records[j])
            && (FindImage(records, id).None? ==> r == records)
            && (FindImage(records, id).Some? ==>
                  var i := FindImage(records, id).value;
                  r[i].hidden == hidden && forall j :: 0 <= j < |r| && j != i ==> r[j] == records[j])
  {
  }

  /** The lookup looks at the ids only. */
  lemma {:induction false} FindImageByIds(a: seq<Record>, b: seq<Record>, id: string)
    requires |a| == |b| && forall j :: 0 <= j < |a| ==> a[j].id == b[j].id
    ensures FindImage(a, id) == FindImage(b, id)
  {
    if a != [] {
      FindImageByIds(a[1..], b[1..], id);
    }
  }

  /** The update keeps the ids, so the same record is found afterwards. */
  lemma WithHiddenKeepsLookup(records: seq<Record>, id: string, hidden: bool, other: string)
    ensures FindImage(WithHidden(records, id, hidden), other) == FindImage(records, other)
  {
    FindImageByIds(WithHidden(records, id, hidden), records, other);
  }

  /** Hiding and then restoring the previous flag gives the list back (hide then show of a shown image). */
  lemma HideThenRestore(records: seq<Record>, id: string, hidden: bool)
    requires FindImage(records, id).Some?
    ensures var was := records[FindImage(records, id).value].hidden;
            WithHidden(WithHidden(records, id, hidden), id, was) == records
  {
    var i := FindImage(records, id).value;
    WithHiddenKeepsLookup(records, id, hidden, id);
  }

  // -------------------------------------------------------- media kind

  /** `url.toLowerCase().endsWith('.mp4') || url.toLowerCase().endsWith('.webm')`. */
  predicate IsVideo(url: string) {
    EndsWith(ToLower(url), ".mp4") || EndsWith(ToLower(url), ".webm")
  }

  lemma {:induction false} ToLowerConcat(a: string, b: string)
    ensures ToLower(a + b) == ToLower(a) + ToLower(b)
  {
    var l, r := ToLower(a + b), ToLower(a) + ToLower(b);
    forall i | 0 <= i < |a + b|
      ensures l[i] == r[i]
    {
      if i < |a| {
        assert (a + b)[i] == a[i];
      } else {
        assert (a + b)[i] == b[i - |a|];
      }
    }
  }

  /** Any name ending in `.mp4` or `.webm`, whatever the case of the rest, is a video; the test ignores case. */
  lemma VideoByExtension(stem: string)
    ensures IsVideo(stem + ".mp4") && IsVideo(stem + ".webm")
    ensures IsVideo(ToLower(stem)) == IsVideo(stem)
  {
    EndsWithExtension(stem, ".mp4");
    EndsWithExtension(stem, ".webm");
    assert ToLower(ToLower(stem)) == ToLower(stem) by {
      ToLowerNoUpper(stem);
      ToLowerOfLower(ToLower(stem));
    }
  }

  lemma EndsWithExtension(stem: string, ext: string)
    requires NoUpper(ext)
    ensures EndsWith(ToLower(stem + ext), ext)
  {
    var t := ToLower(stem) + ext;
    assert ToLower(stem + ext) == t by {
      ToLowerConcat(stem, ext);
      ToLowerOfLower(ext);
    }
    assert t[|t| - |ext|..] == ext;
  }

  // ---------------------------------------------------------- container

  /** What one container shows: the inputs of `createCustomImageContainer` plus the id and the hidden flag set on it. */
  datatype View = View(imageId: string, url: string, prompt: string, aspectRatio: string, baseSize: int, hidden: bool, video: bool)

  /** The view of a stored record, with its own settings snapshot (restoration). */
  function ViewOf(r: Record, sniffVideo: bool): (v: View)
    ensures v.imageId == r.id && v.url == r.url && v.prompt == r.prompt && v.hidden == r.hidden
    ensures v.aspectRatio == r.settings.aspectRatio && v.baseSize == r.settings.baseSize
    ensures v.video <==> sniffVideo && IsVideo(r.url)
  {
    View(r.id, r.url, r.prompt, r.settings.aspectRatio, r.settings.baseSize, r.hidden, sniffVideo && IsVideo(r.url))
  }

  /** The class list of the container element. */
  function ContainerClass(hidden: bool): string {
    if hidden then "custom-image-container hidden" else "custom-image-container"
  }

  function MediaElement(url: string, video: bool): string {
    if video then "<video class=\"custom-image\" src=\"" + url + "\" autoplay loop muted playsinline alt=\"Generated video\"></video>"
    else "<img class=\"custom-image\" src=\"" + url + "\" alt=\"Generated image\" />"
  }

  /** `${aspectRatio} • ${baseSize}px`. */
  function MetaLine(aspectRatio: string, baseSize: int): string {
    aspectRatio + " • " + IntToString(baseSize) + "px"
  }

  const ContainerOpen := "<div class=\""

  /** The `data-image-id` attribute. */
  function IdAttr(id: string): string {
    "data-image-id=\"" + id + "\""
  }

  /** Everything after the opening tag's attributes: the wrapper, the media, the prompt and the size line. */
  function Inner(v: View): string {
    ">" + "<div class=\"custom-image-wrapper aspect-" + ReplaceFirst(v.aspectRatio, ":", "-") + "\">"
      + MediaElement(v.url, v.video)
      + "<span class=\"prompt-text\">" + v.prompt + "</span>"
      + "<div class=\"image-meta\">" + MetaLine(v.aspectRatio, v.baseSize) + "</div>"
      + "</div></div>"
  }

  /** The container's outer HTML (controls and icons left out). */
  function Render(v: View): string {
    ContainerOpen + ContainerClass(v.hidden) + "\" " + IdAttr(v.imageId) + Inner(v)
  }

  /** The opening of a container element that carries the `hidden` class. */
  const HiddenOpen := ContainerOpen + ContainerClass(true) + "\""

  /** The middle piece of a concatenation sits right after the first. */
  lemma SliceMiddle(x: string, y: string, z: string)
    ensures (x + y + z)[|x|..|x| + |y|] == y
  {
    assert (x + y + z)[|x|..] == y + z;
  }

  /** The container element carries its view's id in its `data-image-id` attribute. */
  lemma RenderHasId(v: View)
    ensures OccursAt(Render(v), IdAttr(v.imageId), |ContainerOpen| + |ContainerClass(v.hidden)| + 2)
  {
    SliceMiddle(ContainerOpen + ContainerClass(v.hidden) + "\" ", IdAttr(v.imageId), Inner(v));
  }

  /** A prefix of a sequence stays a prefix of anything appended to it. */
  lemma PrefixExtends(p: string, q: string, r: string)
    requires p <= q
    ensures p <= q + r
  {
    assert (q + r)[..|q|] == q;
  }

  /** The head of the container's markup: its opening tag up to the `data-image-id` attribute. */
  function Head(hidden: bool): string {
    ContainerOpen + ContainerClass(hidden) + "\" "
  }

  /** Whether the head carries the `hidden` class is told apart by its first bytes. */
  lemma HeadMarksHidden(hidden: bool)
    ensures hidden <==> HiddenOpen <= Head(hidden)
  {
    if !hidden {
      var n := |ContainerOpen| + 22;
      assert Head(hidden)[n] == '"' && HiddenOpen[n] == ' ';
    }
  }

  /** The container element opens with the `hidden` class exactly when its view is hidden. */
  lemma {:induction false} RenderMarksHidden(v: View)
    ensures v.hidden <==> HiddenOpen <= Render(v)
  {
    var h := Head(v.hidden);
    HeadMarksHidden(v.hidden);
    assert Render(v) == h + IdAttr(v.imageId) + Inner(v);
    PrefixExtends(h, h, IdAttr(v.imageId));
    PrefixExtends(h, h + IdAttr(v.imageId), Inner(v));
    if !v.hidden {
      var n := |ContainerOpen| + 22;
      assert Render(v)[n] == h[n];
    }
  }
}
