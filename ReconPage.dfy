/** The page-level state that js/main.js updates in place: the output panels
    of the two generators, the tab panes and tab buttons of the payloads
    page, the code blocks that receive copy buttons, and the encoder's output
    box. Input values and the page's layout are parameters; the markup
    itself is not modelled. */
module ReconPage {
  import opened Wrappers
  import opened Text
  import opened Recon
  import opened Encoding

  /** The last segment of the path after its last `/`. */
  lemma {:induction false} SplitLast(s: string, c: char)
    ensures var parts := Split(s, c); var l := parts[|parts| - 1];
      |l| <= |s| && l == s[|s| - |l|..] && (|l| < |s| ==> s[|s| - |l| - 1] == c)
    decreases |s|
  {
    match IndexOf(s, [c])
    case None =>
    case Some(i) =>
      SplitStep(s, c, i);
      SplitLast(s[i + 1..], c);
      var tail := Split(s[i + 1..], c);
      assert Split(s, c)[|Split(s, c)| - 1] == tail[|tail| - 1];
      SuffixOfRest(s, i, c, tail[|tail| - 1]);
  }

  /** A suffix of the text after index `i`, preceded there by `c` or by the
      character at `i` itself, is such a suffix of the whole text. */
  lemma SuffixOfRest(s: string, i: nat, c: char, l: string)
    requires i < |s| && s[i] == c
    requires var rest := s[i + 1..];
      |l| <= |rest| && l == rest[|rest| - |l|..] && (|l| < |rest| ==> rest[|rest| - |l| - 1] == c)
    ensures |l| <= |s| && l == s[|s| - |l|..] && (|l| < |s| ==> s[|s| - |l| - 1] == c)
  {
    var rest := s[i + 1..];
    assert rest[|rest| - |l|..] == s[|s| - |l|..];
    if |l| < |rest| {
      assert s[|s| - |l| - 1] == rest[|rest| - |l| - 1];
    }
  }

  /** `location.pathname.split('/').pop() || 'index.html'`: the text after the
      last `/` of the path, or `index.html` when that text is empty. */
  function CurrentPage(pathname: string): (page: string)
    ensures page != "" && '/' !in page
    ensures pathname == "" || pathname[|pathname| - 1] == '/' ==> page == "index.html"
    ensures pathname != "" && pathname[|pathname| - 1] != '/' ==>
      && |page| <= |pathname| && pathname[|pathname| - |page|..] == page
      && (|page| == |pathname| || pathname[|pathname| - |page| - 1] == '/')
  {
    SplitLast(pathname, '/');
    var parts := Split(pathname, '/');
    var last := parts[|parts| - 1];
    if last == "" then "index.html" else last
  }

  /** The test that marks a navigation link active. */
  predicate LinkActive(href: string, page: string)
    ensures page != "" ==> (LinkActive(href, page) <==> href == page)
  {
    href == page || (page == "" && href == "index.html")
  }

  /** The second alternative of the test can never fire, because the
      current page is never empty. */
  lemma LinkActiveIsEquality(href: string, pathname: string)
    ensures LinkActive(href, CurrentPage(pathname)) <==> href == CurrentPage(pathname)
  {
  }

  /** A tab pane (keyed by its element id, `""` when it has none) or a tab
      button (keyed by the tab name in its `onclick="switchTab('…')"`
      attribute, which every tab button carries), with its `active` class. */
  datatype TabElement = TabElement(key: string, active: bool)

  /** The first element with the given key in document order: what
      `querySelector` finds, and what `getElementById` finds for a
      non-empty id. */
  function FirstKeyed(xs: seq<TabElement>, key: string): (r: Option<nat>)
    ensures r.Some? ==> r.value < |xs| && xs[r.value].key == key
    ensures r.Some? ==> forall j :: 0 <= j < r.value ==> xs[j].key != key
    ensures r.None? ==> forall j :: 0 <= j < |xs| ==> xs[j].key != key
  {
    if xs == [] then None
    else if xs[0].key == key then Some(0)
    else match FirstKeyed(xs[1..], key)
      case None => None
      case Some(i) => Some(i + 1)
  }

  /** The elements after `switchTab(key)`: keys unchanged, at most one element
      active, and an element is active exactly when it is the first one
      carrying the key. Which element was active before does not matter. */
  function Switched(xs: seq<TabElement>, key: string): (r: seq<TabElement>)
    ensures |r| == |xs|
    ensures forall i :: 0 <= i < |r| ==> r[i].key == xs[i].key
    ensures forall i, j :: 0 <= i < |r| && 0 <= j < |r| && r[i].active && r[j].active ==> i == j
    ensures forall i :: 0 <= i < |r| && r[i].active ==>
      r[i].key == key && forall j :: 0 <= j < i ==> xs[j].key != key
    ensures (exists i :: 0 <= i < |r| && r[i].active) <==> (exists i :: 0 <= i < |xs| && xs[i].key == key)
  {
    var first := FirstKeyed(xs, key);
    var r := seq(|xs|, i requires 0 <= i < |xs| => TabElement(xs[i].key, first == Some(i)));
    assert first.Some? ==> r[first.value].active;
    r
  }

  /** Switching to the same tab twice is switching once. */
  lemma SwitchedIdempotent(xs: seq<TabElement>, key: string)
    ensures Switched(Switched(xs, key), key) == Switched(xs, key)
  {
    var once := Switched(xs, key);
    assert FirstKeyed(once, key) == FirstKeyed(xs, key) by {
      FirstKeyedByKeys(once, xs, key);
    }
  }

  /** The first match depends on the keys only. */
  lemma {:induction false} FirstKeyedByKeys(xs: seq<TabElement>, ys: seq<TabElement>, key: string)
    requires |xs| == |ys| && forall i :: 0 <= i < |xs| ==> xs[i].key == ys[i].key
    ensures FirstKeyed(xs, key) == FirstKeyed(ys, key)
  {
    if xs != [] && xs[0].key != key {
      FirstKeyedByKeys(xs[1..], ys[1..], key);
    }
  }

  /** A tab name that the attribute selector `[onclick="switchTab('…')"]` can
      hold as plain text: no quote that would end the CSS string, no
      backslash that would start an escape, no line break. */
  predicate SelectorSafe(name: string) {
    forall k :: 0 <= k < |name| ==>
      name[k] != '"' && name[k] != '\\' && name[k] != '\n' && name[k] != '\r' && name[k] != '\U{000C}'
  }

  /** The `classList.remove('active')` loop over all panes or all buttons. */
  method Deactivate(xs: seq<TabElement>) returns (ys: seq<TabElement>)
    ensures |ys| == |xs|
    ensures forall i :: 0 <= i < |ys| ==> ys[i] == TabElement(xs[i].key, false)
  {
    ys := xs;
    var i := 0;
    while i < |ys|
      invariant 0 <= i <= |ys| == |xs|
      invariant forall k :: 0 <= k < i ==> ys[k] == TabElement(xs[k].key, false)
      invariant forall k :: i <= k < |ys| ==> ys[k] == xs[k]
    {
      ys := ys[i := TabElement(ys[i].key, false)];
      i := i + 1;
    }
  }

  /** Adds the `active` class to the first element with the key, if any. */
  method ActivateFirst(xs: seq<TabElement>, key: string) returns (ys: seq<TabElement>)
    requires forall i :: 0 <= i < |xs| ==> !xs[i].active
    ensures ys == Switched(xs, key)
  {
    ys := xs;
    match FirstKeyed(xs, key)
    case Some(i) =>
      ys := xs[i := TabElement(xs[i].key, true)];
    case None =>
  }

  /** A code block of the page: the text of its `code` element (or of its
      `pre`, or of the block itself), and the texts its copy buttons copy. */
  datatype CodeBlock = CodeBlock(text: string, copyButtons: seq<string>)

  /** One block after `addCopyButtonsToCodeBlocks`: a block that already holds
      a copy button is left alone; any other gains one button that copies the
      block's text. Either way it now holds a button. */
  function WithCopyButton(b: CodeBlock): (r: CodeBlock)
    ensures r.text == b.text && r.copyButtons != []
    ensures b.copyButtons != [] ==> r == b
    ensures b.copyButtons == [] ==> r.copyButtons == [b.text]
  {
    if b.copyButtons != [] then b else CodeBlock(b.text, [b.text])
  }

  /** The tools and payloads pages as the script sees them. */
  class Page {
    /** The page has the domain input and its output panel. */
    const hasDomainTool: bool
    /** The page has the command-domain input and its output panel. */
    const hasCommandTool: bool
    /** The page has the encoder's input and output boxes. */
    const hasEncoder: bool

    var domainPanel: seq<Item>
    var commandPanel: seq<Item>
    var panes: seq<TabElement>
    var tabButtons: seq<TabElement>
    var codeBlocks: seq<CodeBlock>
    var encoderOutput: string

    constructor (hasDomainTool: bool, hasCommandTool: bool, hasEncoder: bool,
                 panes: seq<TabElement>, tabButtons: seq<TabElement>, codeBlocks: seq<CodeBlock>)
      ensures this.hasDomainTool == hasDomainTool && this.hasCommandTool == hasCommandTool
      ensures this.hasEncoder == hasEncoder
      ensures this.panes == panes && this.tabButtons == tabButtons && this.codeBlocks == codeBlocks
      ensures domainPanel == [] && commandPanel == [] && encoderOutput == ""
    {
      this.hasDomainTool := hasDomainTool;
      this.hasCommandTool := hasCommandTool;
      this.hasEncoder := hasEncoder;
      this.panes := panes;
      this.tabButtons := tabButtons;
      this.codeBlocks := codeBlocks;
      domainPanel := [];
      commandPanel := [];
      encoderOutput := "";
    }

    /** "Copy All" under the variants: the URL item texts, one per line. */
    function CopyAllVariants(): (r: string)
      reads this
      ensures UrlTexts(domainPanel) == [] ==> r == ""
      ensures UrlTexts(domainPanel) != []
        && (forall i :: 0 <= i < |UrlTexts(domainPanel)| ==> '\n' !in UrlTexts(domainPanel)[i])
        ==> Split(r, '\n') == UrlTexts(domainPanel)
    {
      CopyAllText(UrlTexts(domainPanel))
    }

    /** "Copy All" under the commands: the command item texts, one per line. */
    function CopyAllCommands(): (r: string)
      reads this
      ensures CommandTexts(commandPanel) == [] ==> r == ""
      ensures CommandTexts(commandPanel) != []
        && (forall i :: 0 <= i < |CommandTexts(commandPanel)| ==> '\n' !in CommandTexts(commandPanel)[i])
        ==> Split(r, '\n') == CommandTexts(commandPanel)
    {
      CopyAllText(CommandTexts(commandPanel))
    }

    /** `generateDomainVariants` with the input's current value. A blank
      value replaces the panel by the warning; otherwise the panel lists the
      fourteen variants of the cleaned domain, and "Copy All" copies them in
      order, one per line. */
    method GenerateDomainVariants(value: string)
      modifies this`domainPanel
      ensures !hasDomainTool ==> domainPanel == old(domainPanel)
      ensures hasDomainTool && ReadDomain(value).EmptyDomain? ==>
        domainPanel == [Warning(EmptyDomainWarning)]
      ensures hasDomainTool && ReadDomain(value).Domain? ==>
        && |domainPanel| == 15 && domainPanel[0] == CountHeading(14)
        && UrlTexts(domainPanel) == Variants(ReadDomain(value).clean)
        && CopyAllVariants() == Join(Variants(ReadDomain(value).clean), "\n")
    {
      if !hasDomainTool {
        return;
      }
      match ReadDomain(value)
      case EmptyDomain =>
        domainPanel := [Warning(EmptyDomainWarning)];
      case Domain(clean) =>
        domainPanel := RenderVariants(Variants(clean));
    }

    /** `generateCommands` with the input's current value. A blank value
      replaces the panel by the warning; otherwise the panel holds the
      catalogue for the cleaned domain, and "Copy All" copies its seventeen
      commands in catalogue order, one per line. */
    method GenerateCommands(value: string)
      modifies this`commandPanel
      ensures !hasCommandTool ==> commandPanel == old(commandPanel)
      ensures hasCommandTool && ReadDomain(value).EmptyDomain? ==>
        commandPanel == [Warning(EmptyDomainWarning)]
      ensures hasCommandTool && ReadDomain(value).Domain? ==>
        && commandPanel == [Heading(CommandsHeading)] + SectionsItems(BuildSections(ReadDomain(value).clean))
        && CommandTexts(commandPanel) == AllCommands(BuildSections(ReadDomain(value).clean))
        && CopyAllCommands() == Join(AllCommands(BuildSections(ReadDomain(value).clean)), "\n")
    {
      if !hasCommandTool {
        return;
      }
      match ReadDomain(value)
      case EmptyDomain =>
        commandPanel := [Warning(EmptyDomainWarning)];
      case Domain(clean) =>
        var sections := BuildSections(clean);
        commandPanel := RenderCommands(sections);
    }

    /** `switchTab(tabName)`: every pane and button loses `active`, then the
      first pane with that id and the first button for that tab gain it.
      `getElementById('')` finds nothing, so an empty name activates no
      pane, even one without an id. */
    method SwitchTab(tabName: string)
      requires SelectorSafe(tabName)
      modifies this`panes, this`tabButtons
      ensures tabName != "" ==> panes == Switched(old(panes), tabName)
      ensures tabName == "" ==>
        && |panes| == |old(panes)|
        && forall i :: 0 <= i < |panes| ==> panes[i] == TabElement(old(panes)[i].key, false)
      ensures tabButtons == Switched(old(tabButtons), tabName)
    {
      var cleared := Deactivate(panes);
      if tabName == "" {
        panes := cleared;
      } else {
        panes := ActivateFirst(cleared, tabName);
        FirstKeyedByKeys(cleared, old(panes), tabName);
      }
      cleared := Deactivate(tabButtons);
      tabButtons := ActivateFirst(cleared, tabName);
      FirstKeyedByKeys(cleared, old(tabButtons), tabName);
    }

    /** `addCopyButtonsToCodeBlocks`: each block without a copy button gets
      one that copies its text; blocks that have one are skipped, so on a
      page where every block has a button nothing changes. */
    method AddCopyButtonsToCodeBlocks()
      modifies this`codeBlocks
      ensures |codeBlocks| == |old(codeBlocks)|
      ensures forall i :: 0 <= i < |codeBlocks| ==> codeBlocks[i] == WithCopyButton(old(codeBlocks)[i])
      ensures forall i :: 0 <= i < |codeBlocks| ==> codeBlocks[i].copyButtons != []
      ensures (forall i :: 0 <= i < |old(codeBlocks)| ==> old(codeBlocks)[i].copyButtons != [])
        ==> codeBlocks == old(codeBlocks)
    {
      var i := 0;
      while i < |codeBlocks|
        invariant 0 <= i <= |codeBlocks| == |old(codeBlocks)|
        invariant forall k :: 0 <= k < i ==> codeBlocks[k] == WithCopyButton(old(codeBlocks)[k])
        invariant forall k :: i <= k < |codeBlocks| ==> codeBlocks[k] == old(codeBlocks)[k]
      {
        if codeBlocks[i].copyButtons == [] {
          codeBlocks := codeBlocks[i := CodeBlock(codeBlocks[i].text, [codeBlocks[i].text])];
        }
        i := i + 1;
      }
    }

    /** `encodePayload(kind)` on the encoder's input text. A built-in that
      throws leaves the output box as it was and the exception escapes. */
    method EncodePayload(kind: string, text: string, lib: Builtins) returns (threw: bool)
      modifies this`encoderOutput
      ensures !hasEncoder ==> !threw && encoderOutput == old(encoderOutput)
      ensures hasEncoder ==> threw == EncodeResult(kind, text, lib).None?
      ensures threw ==> encoderOutput == old(encoderOutput)
      ensures hasEncoder && !threw ==> encoderOutput == EncodeResult(kind, text, lib).value
    {
      threw := false;
      if !hasEncoder {
        return;
      }
      match EncodeResult(kind, text, lib)
      case None =>
        threw := true;
      case Some(result) =>
        encoderOutput := result;
    }

    /** `decodePayload(kind)` on the encoder's input text: the output box is
      always overwritten, with the fixed error text when decoding threw. */
    method DecodePayload(kind: string, text: string, lib: Builtins)
      modifies this`encoderOutput
      ensures !hasEncoder ==> encoderOutput == old(encoderOutput)
      ensures hasEncoder ==> encoderOutput == DecodeResult(kind, text, lib)
    {
      if hasEncoder {
        encoderOutput := DecodeResult(kind, text, lib);
      }
    }
  }

  /** The variants panel, copied as a whole, splits back into the fourteen
      variants when the cleaned domain has no line feed. */
  lemma CopiedVariantsSplit(clean: string)
    requires '\n' !in clean
    ensures Split(CopyAllText(Variants(clean)), '\n') == Variants(clean)
  {
    var vs := Variants(clean);
    forall i | 0 <= i < |vs| ensures '\n' !in vs[i] {
      assert vs[i] == VariantPrefixes[i] + clean;
      assert '\n' !in VariantPrefixes[i];
    }
    assert |vs| == 14;
  }
}
