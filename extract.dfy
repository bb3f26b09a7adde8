/**
 * `extractImagePromptFromText` (index.js:313-340): the message markup is
 * matched against the configured pattern and a match is a directive when its
 * capture groups are non-empty. The legacy pattern needs group 1 (the
 * prompt); the ECG pattern needs groups 1, 2 and 3 (prompt, generation type,
 * character dialogue). A pattern that does not compile gives no directive.
 *
 * The regular-expression engine itself is not modelled: a `Pattern` is what
 * `new RegExp(source, 'is')` makes of the configured source, either a failure
 * to compile or the first-match function `text.match(regex)` computes.
 */
module Extract {
  import opened Wrappers
  import opened Text

  /** The array `text.match(regex)` returns: `match[0]` and the capture groups (`undefined` as `None`). */
  datatype RegexMatch = RegexMatch(full: string, groups: seq<Option<string>>)

  /** A compiled pattern: `valid` is false when `new RegExp` throws; `exec` gives the first match, if any. */
  datatype Pattern = Pattern(valid: bool, exec: string -> Option<RegexMatch>)

  /** `match[i]`: index 0 is the whole match, a missing group is `undefined`. */
  function Group(m: RegexMatch, i: nat): (g: Option<string>)
    ensures i == 0 ==> g == Some(m.full)
    ensures i > |m.groups| ==> g.None?
  {
    if i == 0 then Some(m.full)
    else if i <= |m.groups| then m.groups[i - 1]
    else None
  }

  /** JavaScript truthiness of a group: present and non-empty. */
  predicate Truthy(g: Option<string>) {
    g.Some? && g.value != []
  }

  /** The extracted directive: `{genType, prompt, fullMatch, charDialogue}`. */
  datatype Directive = Directive(genType: string, prompt: string, fullMatch: string, charDialogue: string)

  function ActivePattern(useEcg: bool, regex: Pattern, ecgRegex: Pattern): Pattern {
    if useEcg then ecgRegex else regex
  }

  /** The groups a match must have, non-empty, to be a directive in the given mode. */
  predicate Accepted(useEcg: bool, m: RegexMatch) {
    if useEcg then Truthy(Group(m, 1)) && Truthy(Group(m, 2)) && Truthy(Group(m, 3))
    else Truthy(Group(m, 1))
  }

  /**
   * `extractImagePromptFromText(text)` with the settings' `useEcg`, `regex`
   * and `ecgRegex`. The groups are tested before they are trimmed, so an ECG
   * directive whose prompt is only white space is accepted with an empty
   * prompt.
   */
  function ExtractImagePrompt(useEcg: bool, regex: Pattern, ecgRegex: Pattern, text: string): (r: Option<Directive>)
    ensures var p := ActivePattern(useEcg, regex, ecgRegex);
            r.Some? <==> p.valid && p.exec(text).Some? && Accepted(useEcg, p.exec(text).value)
    ensures r.Some? ==>
            var m := ActivePattern(useEcg, regex, ecgRegex).exec(text).value;
            && r.value.fullMatch == m.full
            && r.value.prompt == Trim(Group(m, 1).value)
            && IsTrimmed(r.value.prompt) && IsTrimmed(r.value.genType) && IsTrimmed(r.value.charDialogue)
    ensures r.Some? && !useEcg ==> r.value.genType == "txt2img" && r.value.charDialogue == ""
    ensures r.Some? && useEcg ==>
            var m := ecgRegex.exec(text).value;
            r.value.genType == Trim(Group(m, 2).value) && r.value.charDialogue == Trim(Group(m, 3).value)
  {
    var p := ActivePattern(useEcg, regex, ecgRegex);
    if !p.valid then None
    else match p.exec(text)
      case None => None
      case Some(m) =>
        if !useEcg && Truthy(Group(m, 1)) then
          assert IsTrimmed("txt2img") && IsTrimmed("");
          Some(Directive("txt2img", Trim(Group(m, 1).value), m.full, ""))
        else if useEcg && Truthy(Group(m, 1)) && Truthy(Group(m, 2)) && Truthy(Group(m, 3)) then
          Some(Directive(Trim(Group(m, 2).value), Trim(Group(m, 1).value), m.full, Trim(Group(m, 3).value)))
        else None
  }

  /**
   * The error toasts one extraction shows: `new RegExp` throwing is caught
   * and reported with a toast, whatever the text; a pattern that compiles
   * shows none.
   */
  function InvalidPatternToasts(useEcg: bool, regex: Pattern, ecgRegex: Pattern): nat {
    if ActivePattern(useEcg, regex, ecgRegex).valid then 0 else 1
  }

  /** A toast means no directive, and a directive means no toast: both come from the same compile step. */
  lemma ToastExcludesDirective(useEcg: bool, regex: Pattern, ecgRegex: Pattern, text: string)
    ensures InvalidPatternToasts(useEcg, regex, ecgRegex) <= 1
    ensures InvalidPatternToasts(useEcg, regex, ecgRegex) == 1 ==> ExtractImagePrompt(useEcg, regex, ecgRegex, text).None?
    ensures ExtractImagePrompt(useEcg, regex, ecgRegex, text).Some? ==> InvalidPatternToasts(useEcg, regex, ecgRegex) == 0
  {
  }

  /** The whole match is always a piece of the text it was found in. */
  ghost predicate Sound(p: Pattern) {
    forall h :: p.exec(h).Some? ==> Occurs(h, p.exec(h).value.full)
  }

  /** With a sound pattern the directive's full match occurs in the markup it came from. */
  lemma DirectiveOccurs(useEcg: bool, regex: Pattern, ecgRegex: Pattern, text: string)
    requires Sound(ActivePattern(useEcg, regex, ecgRegex))
    requires ExtractImagePrompt(useEcg, regex, ecgRegex, text).Some?
    ensures Occurs(text, ExtractImagePrompt(useEcg, regex, ecgRegex, text).value.fullMatch)
  {
    var p := ActivePattern(useEcg, regex, ecgRegex);
    assert p.exec(text).Some?;
  }

  /**
   * In ECG mode a prompt group of white space only passes the non-empty test
   * and yields a directive with the empty prompt.
   */
  lemma EcgAcceptsBlankPrompt(regex: Pattern, ecgRegex: Pattern, text: string, full: string, genType: string, dialogue: string)
    requires ecgRegex.valid
    requires genType != [] && dialogue != []
    requires ecgRegex.exec(text) == Some(RegexMatch(full, [Some(" "), Some(genType), Some(dialogue)]))
    ensures var r := ExtractImagePrompt(true, regex, ecgRegex, text);
            r.Some? && r.value.prompt == [] && r.value.fullMatch == full
  {
    var m := RegexMatch(full, [Some(" "), Some(genType), Some(dialogue)]);
    assert Group(m, 1) == Some(" ");
    assert TrimStart(" ") == [];
  }
}
