/**
 * `generateWithECG` (index.js:882-952): the routing to the ComfyUI provider.
 * Every provider request is an `st:comfyui:generate` event carrying an
 * `onComplete` callback; the provider later calls it with a URL or an error.
 * The routing is a small state machine: a step either issues a request or
 * delivers the final outcome to the caller's `onComplete`.
 *
 * - `txt2img`: one request with the static workflow and dimensions, whose
 *   callback is the caller's.
 * - `img2img`: a base image with the static settings; its callback passes an
 *   error straight on, and on success issues the video request with the
 *   dynamic settings, the base image as input and a prompt built from the
 *   character's dialogue and the image prompt.
 * - any other type: the caller's callback gets an error at once.
 */
module Dispatch {
  import opened Wrappers
  import opened Text

  /** The `ecgStatic*` and `ecgDynamic*` settings. */
  datatype EcgSettings = EcgSettings(
    staticWorkflow: string, staticWidth: int, staticHeight: int,
    dynamicWorkflow: string, dynamicWidth: int, dynamicHeight: int)

  /** Which callback the provider calls when a request completes. */
  datatype Stage =
    | Final              // the caller's own `onComplete`
    | BaseImage(videoPrompt: string) // stage 1 of img2img: on success, issue the video request

  /** The `detail` of an `st:comfyui:generate` event. */
  datatype Request = Request(
    messageId: nat, genType: Option<string>, workflow: string, prompt: string,
    inputImageUrl: Option<string>, width: int, height: int, characterName: string, stage: Stage)

  /** What the provider passes to a callback: an error, or the URL of the result. */
  datatype Outcome = Failed(error: string) | Succeeded(url: string)

  datatype Step = Issue(request: Request) | Deliver(outcome: Outcome)

  const VideoPromptIntro := "Base on the character(the character in the image)'s dialogue:\n \""
  const VideoPromptMiddle := "\".\n And consider the description of the input image:\n \""
  const VideoPromptOutro := "\",\n Generate a detailed prompt for 5s video, the prompt needs to focus on the movement of the character(include face expressions but without any other description of the character's looks) while make the camera movement fits the scene. Make sure the prompt is follow the image to video prompt generation guides in system prompt, output only the prompt without any additional explanation."

  /** `promptForImg2Img`: the dialogue and the image prompt, each quoted inside a fixed instruction. */
  function VideoPrompt(charDialogue: string, prompt: string): (r: string)
    ensures OccursAt(r, charDialogue, |VideoPromptIntro|)
    ensures OccursAt(r, prompt, |VideoPromptIntro| + |charDialogue| + |VideoPromptMiddle|)
  {
    var r := VideoPromptIntro + charDialogue + VideoPromptMiddle + prompt + VideoPromptOutro;
    assert r[|VideoPromptIntro|..|VideoPromptIntro| + |charDialogue|] == charDialogue;
    var k := |VideoPromptIntro| + |charDialogue| + |VideoPromptMiddle|;
    assert r[k..k + |prompt|] == prompt;
    r
  }

  /** The error `generateWithECG` passes on for a type it does not know. */
  function UnknownTypeError(genType: string): string {
    "Unknown generation type: " + genType
  }

  /** The first step of `generateWithECG(genType, prompt, characterName, charDialogue, messageId, onComplete)`. */
  function GenerateWithEcg(s: EcgSettings, genType: string, prompt: string, characterName: string,
                           charDialogue: string, messageId: nat): (step: Step)
    ensures step.Issue? <==> genType == "txt2img" || genType == "img2img"
    ensures step.Issue? ==>
            var r := step.request;
            && r.messageId == messageId && r.prompt == prompt && r.characterName == characterName
            && r.workflow == s.staticWorkflow && r.width == s.staticWidth && r.height == s.staticHeight
            && r.inputImageUrl.None? && r.genType.None?
    ensures genType == "txt2img" ==> step.request.stage.Final?
    ensures genType == "img2img" ==> step.request.stage == BaseImage(VideoPrompt(charDialogue, prompt))
    ensures step.Deliver? ==> step.outcome == Failed(UnknownTypeError(genType))
  {
    var base := Request(messageId, None, s.staticWorkflow, prompt, None, s.staticWidth, s.staticHeight, characterName, Final);
    if genType == "txt2img" then Issue(base)
    else if genType == "img2img" then Issue(base.(stage := BaseImage(VideoPrompt(charDialogue, prompt))))
    else Deliver(Failed(UnknownTypeError(genType)))
  }

  /** The video request of img2img, issued once the base image is at `staticImageUrl`. */
  function VideoRequest(s: EcgSettings, base: Request, videoPrompt: string, staticImageUrl: string): (r: Request)
    ensures r.messageId == base.messageId && r.characterName == base.characterName
    ensures r.workflow == s.dynamicWorkflow && r.width == s.dynamicWidth && r.height == s.dynamicHeight
    ensures r.inputImageUrl == Some(staticImageUrl) && r.prompt == videoPrompt
    ensures r.genType == Some("img2img") && r.stage.Final?
  {
    Request(base.messageId, Some("img2img"), s.dynamicWorkflow, videoPrompt, Some(staticImageUrl),
            s.dynamicWidth, s.dynamicHeight, base.characterName, Final)
  }

  /** What happens when the provider calls the callback of request `r` with `result`. */
  function OnProviderComplete(s: EcgSettings, r: Request, result: Outcome): (step: Step)
    ensures step.Issue? <==> r.stage.BaseImage? && result.Succeeded?
    ensures step.Issue? ==> step.request == VideoRequest(s, r, r.stage.videoPrompt, result.url)
    ensures step.Deliver? ==> step.outcome == result
  {
    match r.stage
    case Final => Deliver(result)
    case BaseImage(videoPrompt) =>
      match result
      case Failed(_) => Deliver(result)
      case Succeeded(url) => Issue(VideoRequest(s, r, videoPrompt, url))
  }

  /**
   * Runs the chain from `step`, the provider answering the issued requests
   * with `results` in turn: the requests issued, and the outcome delivered to
   * the caller's `onComplete` (none while a request is still pending).
   */
  function Run(s: EcgSettings, step: Step, results: seq<Outcome>): (run: (seq<Request>, Option<Outcome>))
    decreases |results|
  {
    match step
    case Deliver(o) => ([], Some(o))
    case Issue(r) =>
      if results == [] then ([r], None)
      else
        var rest := Run(s, OnProviderComplete(s, r, results[0]), results[1..]);
        ([r] + rest.0, rest.1)
  }

  /** txt2img: one request with the static settings, whose result is delivered as it is. */
  lemma {:induction false} Txt2ImgRun(s: EcgSettings, prompt: string, characterName: string, charDialogue: string,
                                      messageId: nat, result: Outcome)
    ensures var first := GenerateWithEcg(s, "txt2img", prompt, characterName, charDialogue, messageId);
            Run(s, first, [result]) == ([first.request], Some(result))
  {
    var first := GenerateWithEcg(s, "txt2img", prompt, characterName, charDialogue, messageId);
    assert first.Issue? && [result][0] == result && [result][1..] == [];
    assert Run(s, OnProviderComplete(s, first.request, result), []) == ([], Some(result));
    assert Run(s, first, [result]) == ([first.request] + [], Some(result));
    assert [first.request] + [] == [first.request];
  }

  /** img2img, base image failed: the error is delivered once and no video request is issued. */
  lemma {:induction false} Img2ImgBaseFails(s: EcgSettings, prompt: string, characterName: string, charDialogue: string,
                                            messageId: nat, error: string, later: seq<Outcome>)
    ensures var first := GenerateWithEcg(s, "img2img", prompt, characterName, charDialogue, messageId);
            Run(s, first, [Failed(error)] + later) == ([first.request], Some(Failed(error)))
  {
    var first := GenerateWithEcg(s, "img2img", prompt, characterName, charDialogue, messageId);
    var results := [Failed(error)] + later;
    assert results[0] == Failed(error) && results[1..] == later;
    assert first.Issue? && OnProviderComplete(s, first.request, Failed(error)) == Deliver(Failed(error));
    assert Run(s, first, results) == ([first.request] + [], Some(Failed(error)));
    assert [first.request] + [] == [first.request];
  }

  /**
   * img2img, base image made: exactly two requests, the second with the
   * dynamic settings, the base image as input and the video prompt; whatever
   * the video request gives is delivered.
   */
  lemma {:induction false} Img2ImgChain(s: EcgSettings, prompt: string, characterName: string, charDialogue: string,
                                        messageId: nat, staticUrl: string, result: Outcome, later: seq<Outcome>)
    ensures var first := GenerateWithEcg(s, "img2img", prompt, characterName, charDialogue, messageId);
            var run := Run(s, first, [Succeeded(staticUrl), result] + later);
            && |run.0| == 2 && run.0[0] == first.request
            && run.0[1].workflow == s.dynamicWorkflow
            && run.0[1].width == s.dynamicWidth && run.0[1].height == s.dynamicHeight
            && run.0[1].inputImageUrl == Some(staticUrl)
            && run.0[1].prompt == VideoPrompt(charDialogue, prompt)
            && run.0[1].messageId == messageId
            && run.1 == Some(result)
  {
    var first := GenerateWithEcg(s, "img2img", prompt, characterName, charDialogue, messageId);
    var results := [Succeeded(staticUrl), result] + later;
    assert results[0] == Succeeded(staticUrl) && results[1..] == [result] + later;
    var second := OnProviderComplete(s, first.request, Succeeded(staticUrl));
    assert second.Issue?;
    assert ([result] + later)[0] == result && ([result] + later)[1..] == later;
    assert OnProviderComplete(s, second.request, result) == Deliver(result);
    assert Run(s, second, [result] + later) == ([second.request] + [], Some(result));
    assert first.Issue? && results != [];
    assert Run(s, first, results) == ([first.request] + Run(s, second, results[1..]).0, Run(s, second, results[1..]).1);
    assert [second.request] + [] == [second.request];
  }

  /** Any other type: the error is delivered at once and nothing is issued. */
  lemma UnknownTypeRun(s: EcgSettings, genType: string, prompt: string, characterName: string, charDialogue: string,
                       messageId: nat, results: seq<Outcome>)
    requires genType != "txt2img" && genType != "img2img"
    ensures Run(s, GenerateWithEcg(s, genType, prompt, characterName, charDialogue, messageId), results)
            == ([], Some(Failed(UnknownTypeError(genType))))
  {
  }

  /**
   * Whatever the type and whatever the provider answers, the chain issues at
   * most two requests, all for the same message, and once the provider has
   * answered twice the caller's callback has been called.
   */
  lemma {:induction false} RunBounded(s: EcgSettings, genType: string, prompt: string, characterName: string,
                                      charDialogue: string, messageId: nat, results: seq<Outcome>)
    ensures var run := Run(s, GenerateWithEcg(s, genType, prompt, characterName, charDialogue, messageId), results);
            && |run.0| <= 2
            && (forall i :: 0 <= i < |run.0| ==> run.0[i].messageId == messageId)
            && (|results| >= 2 ==> run.1.Some?)
  {
    var first := GenerateWithEcg(s, genType, prompt, characterName, charDialogue, messageId);
    if first.Issue? && results != [] {
      var second := OnProviderComplete(s, first.request, results[0]);
      if second.Issue? && results[1..] != [] {
        assert second.request.stage.Final?;
        var third := OnProviderComplete(s, second.request, results[1..][0]);
        assert third.Deliver?;
        assert Run(s, third, results[1..][1..]).0 == [];
      }
    }
  }
}
