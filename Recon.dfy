/** The reconnaissance generators of the tools page (js/main.js): the domain
    the user typed is trimmed, checked for emptiness and cleaned; from the
    cleaned domain the page lists fourteen URL variants and a catalogue of
    seventeen tool commands in seven sections, renders them as items, and a
    "Copy All" button joins the rendered item texts with line feeds.
    The output is modelled as the sequence of rendered items, not as markup. */
module Recon {
  import opened Text

  /** The paragraph written instead of any output when the trimmed input is empty. */
  const EmptyDomainWarning := "Please enter a domain name"

  /** `.replace(/^https?:\/\//, '')`: one leading scheme, matched case-sensitively.
      The two schemes cannot both lead, so the one that leads is what goes. */
  function StripScheme(s: string): (r: string)
    ensures StartsWith(s, "https://") ==> s == "https://" + r
    ensures StartsWith(s, "http://") ==> s == "http://" + r
    ensures !StartsWith(s, "https://") && !StartsWith(s, "http://") ==> r == s
  {
    if StartsWith(s, "https://") then
      assert s == s[..8] + s[8..];
      SchemesExclusive(s);
      s[8..]
    else if StartsWith(s, "http://") then
      assert s == s[..7] + s[7..];
      s[7..]
    else s
  }

  /** `.replace(/^www\./, '')`: one leading `www.`. */
  function StripWww(s: string): (r: string)
    ensures StartsWith(s, "www.") ==> s == "www." + r
    ensures !StartsWith(s, "www.") ==> r == s
  {
    if StartsWith(s, "www.") then
      assert s == s[..4] + s[4..];
      s[4..]
    else s
  }

  /** The prefixes cleaning may remove, and nothing else. */
  const RemovablePrefixes: set<string> :=
    {"", "www.", "http://", "https://", "http://www.", "https://www."}

  /** The cleaned domain of an already trimmed input: the longest of the
      removable prefixes that the input starts with is removed. What remains
      is a suffix of the input, so a path, query or fragment is kept. */
  function CleanDomain(trimmed: string): (r: string)
    ensures |r| <= |trimmed| && r == trimmed[|trimmed| - |r|..]
    ensures trimmed[..|trimmed| - |r|] in RemovablePrefixes
    ensures forall q :: q in RemovablePrefixes && StartsWith(trimmed, q) ==> |q| <= |trimmed| - |r|
  {
    CleanDomainRemoves(trimmed);
    CleanDomainLongest(trimmed);
    StripWww(StripScheme(trimmed))
  }

  lemma CleanDomainRemoves(s: string)
    ensures var r := StripWww(StripScheme(s));
      |r| <= |s| && r == s[|s| - |r|..] && s[..|s| - |r|] in RemovablePrefixes
    ensures s[..|s| - |StripScheme(s)|]
         == (if StartsWith(s, "https://") then "https://" else if StartsWith(s, "http://") then "http://" else "")
    ensures var n := StripScheme(s); var r := StripWww(n);
      s[..|s| - |r|] == s[..|s| - |n|] + (if StartsWith(n, "www.") then "www." else "")
  {
    var scheme := SchemePart(s);
    var www := WwwPart(StripScheme(s));
    ConcatParts(s, scheme, www, StripWww(StripScheme(s)));
    ConcatFront(s, scheme, StripScheme(s));
    SchemeWwwRemovable(scheme, www);
  }

  /** What `StripScheme` removes: a scheme or nothing. */
  lemma SchemePart(s: string) returns (scheme: string)
    ensures scheme
         == (if StartsWith(s, "https://") then "https://" else if StartsWith(s, "http://") then "http://" else "")
    ensures s == scheme + StripScheme(s)
  {
    scheme := if StartsWith(s, "https://") then "https://"
              else if StartsWith(s, "http://") then "http://" else "";
  }

  /** What `StripWww` removes: `www.` or nothing. */
  lemma WwwPart(s: string) returns (www: string)
    ensures www == (if StartsWith(s, "www.") then "www." else "")
    ensures s == www + StripWww(s)
  {
    www := if StartsWith(s, "www.") then "www." else "";
  }

  /** The last of three concatenated parts, and the first two, as slices. */
  lemma ConcatParts(s: string, a: string, b: string, r: string)
    requires s == a + (b + r)
    ensures |r| <= |s| && r == s[|s| - |r|..] && s[..|s| - |r|] == a + b
  {
    assert s == (a + b) + r;
  }

  /** The front of a concatenation, as a slice. */
  lemma ConcatFront(s: string, a: string, r: string)
    requires s == a + r
    ensures s[..|s| - |r|] == a
  {
  }

  /** A scheme or nothing, followed by `www.` or nothing, is removable. */
  lemma SchemeWwwRemovable(scheme: string, www: string)
    requires scheme == "https://" || scheme == "http://" || scheme == ""
    requires www == "www." || www == ""
    ensures scheme + www in RemovablePrefixes
  {
    if scheme == "https://" {
      if www == "www." { assert scheme + www == "https://www."; } else { assert scheme + www == "https://"; }
    } else if scheme == "http://" {
      if www == "www." { assert scheme + www == "http://www."; } else { assert scheme + www == "http://"; }
    } else {
      if www == "www." { assert scheme + www == "www."; } else { assert scheme + www == ""; }
    }
  }

  /** No longer removable prefix is left in front of what cleaning keeps. */
  lemma CleanDomainLongest(s: string)
    ensures var r := StripWww(StripScheme(s));
      forall q :: q in RemovablePrefixes && StartsWith(s, q) ==> |q| <= |s| - |r|
  {
    var n := StripScheme(s);
    var r := StripWww(n);
    SchemesExclusive(s);
    NoSchemeBeforeWww(s);
    assert "https://www." == "https://" + "www." && "http://www." == "http://" + "www.";
    StartsWithConcat(s, "https://", "www.");
    StartsWithConcat(s, "http://", "www.");
    if StartsWith(s, "https://") {
      assert s[8..] == n;
    } else if StartsWith(s, "http://") {
      assert s[7..] == n;
    }
  }

  /** The two schemes cannot both lead. */
  lemma SchemesExclusive(s: string)
    ensures !(StartsWith(s, "https://") && StartsWith(s, "http://"))
  {
    StartsWithAt(s, "https://", 4);
    StartsWithAt(s, "http://", 4);
  }

  /** A string that starts with `www.` starts with no scheme. */
  lemma NoSchemeBeforeWww(s: string)
    ensures StartsWith(s, "www.") ==> !StartsWith(s, "http://") && !StartsWith(s, "https://")
  {
    StartsWithAt(s, "www.", 0);
    StartsWithAt(s, "http://", 0);
    StartsWithAt(s, "https://", 0);
  }

  /** Cleaning leaves a string alone exactly when it starts with neither a
      scheme nor `www.`; cleaning is therefore not idempotent in general. */
  lemma CleanDomainFixedPoint(s: string)
    ensures CleanDomain(s) == s
        <==> !StartsWith(s, "http://") && !StartsWith(s, "https://") && !StartsWith(s, "www.")
  {
    if StartsWith(s, "https://") || StartsWith(s, "http://") || StartsWith(s, "www.") {
      assert |CleanDomain(s)| < |s|;
    }
  }

  /** A doubled `www.` loses only one copy: cleaning the cleaned domain
      changes it again. */
  lemma CleanDomainNotIdempotent(t: string)
    ensures CleanDomain("www.www." + t) == "www." + t
    ensures CleanDomain(CleanDomain("www.www." + t)) == t
  {
    assert "www.www." + t == "www." + ("www." + t);
    assert ("www." + ("www." + t))[..4] == "www.";
    assert ("www." + t)[..4] == "www.";
    NoSchemeBeforeWww("www." + ("www." + t));
    NoSchemeBeforeWww("www." + t);
  }

  /** A scheme, `www.` and the rest of the URL: only the first two go, the
      path, query and fragment stay. */
  lemma CleanDomainKeepsPath(rest: string)
    ensures CleanDomain("https://www." + rest) == rest
  {
    var s := "https://" + ("www." + rest);
    assert "https://www." + rest == s;
    assert s[..8] == "https://";
    assert s[8..] == "www." + rest;
    assert ("www." + rest)[..4] == "www.";
  }

  /** Outcome of reading the domain input. */
  datatype DomainInput = EmptyDomain | Domain(clean: string)

  /** The guard and the cleaning that start both generators: the check for
      emptiness looks at the trimmed input before any prefix is removed. */
  function ReadDomain(value: string): (d: DomainInput)
    ensures d == EmptyDomain <==> forall k :: 0 <= k < |value| ==> IsJsSpace(value[k])
    ensures d.Domain? ==> d.clean == CleanDomain(Trim(value))
  {
    var trimmed := Trim(value);
    if trimmed == "" then EmptyDomain else Domain(CleanDomain(trimmed))
  }

  /** An input made of a scheme alone passes the guard and yields the
      empty domain. */
  lemma SchemeOnlyPassesGuard()
    ensures ReadDomain("https://") == Domain("")
  {
    var s := "https://";
    assert !IsJsSpace(s[0]) && TrimStart(s) == s;
    assert !IsJsSpace(s[|s| - 1]) && TrimEnd(s) == s;
    assert Trim(s) == s;
    assert StartsWith(s, "https://") && StripScheme(s) == "";
    assert StripWww("") == "";
  }

  /** The fixed scheme-and-subdomain literals put in front of the cleaned domain. */
  const VariantPrefixes: seq<string> := [
    "https://", "http://", "https://www.", "http://www.",
    "https://api.", "https://dev.", "https://test.", "https://staging.",
    "https://admin.", "https://m.", "https://beta.", "https://portal.",
    "https://dashboard.", "https://app."
  ]

  /** The URL variants of a cleaned domain, in page order. */
  function Variants(domain: string): (r: seq<string>)
    ensures |r| == 14
    ensures forall i :: 0 <= i < |r| ==> r[i] == VariantPrefixes[i] + domain
    ensures forall i :: 0 <= i < |r| ==> |domain| <= |r[i]| && r[i][|r[i]| - |domain|..] == domain
  {
    seq(14, i requires 0 <= i < 14 => VariantPrefixes[i] + domain)
  }

  /** Every variant is an http(s) URL. */
  lemma VariantsAreHttp(domain: string)
    ensures forall i :: 0 <= i < 14 ==> StartsWith(Variants(domain)[i], "http")
  {
    forall i | 0 <= i < 14 ensures StartsWith(Variants(domain)[i], "http") {
      assert StartsWith(VariantPrefixes[i], "http");
      assert Variants(domain)[i][..4] == VariantPrefixes[i][..4];
    }
  }

  /** The fourteen variants of one domain are pairwise different. */
  lemma VariantsDistinct(domain: string)
    ensures forall i, j :: 0 <= i < j < 14 ==> Variants(domain)[i] != Variants(domain)[j]
  {
    forall i, j | 0 <= i < j < 14 ensures Variants(domain)[i] != Variants(domain)[j] {
      var a, b := VariantPrefixes[i], VariantPrefixes[j];
      assert a != b;
    }
  }

  /** Different domains give different variant lists. */
  lemma VariantsInjective(d1: string, d2: string)
    requires Variants(d1) == Variants(d2)
    ensures d1 == d2
  {
    assert Variants(d1)[0] == "https://" + d1;
    assert Variants(d2)[0] == "https://" + d2;
    assert ("https://" + d1)[8..] == d1;
    assert ("https://" + d2)[8..] == d2;
  }

  /** A piece of a command template: literal text, or the place where the
      cleaned domain is spliced in (a `${cleanDomain}` of the template string). */
  datatype Segment = Lit(text: string) | DomainSlot

  type Template = seq<Segment>

  /** Number of domain slots of a template. */
  function Slots(t: Template): nat
  {
    if t == [] then 0 else (if t[0].DomainSlot? then 1 else 0) + Slots(t[1..])
  }

  /** Total length of the literal text of a template. */
  function LiteralLength(t: Template): nat
  {
    if t == [] then 0 else (if t[0].Lit? then |t[0].text| else 0) + LiteralLength(t[1..])
  }

  /** A template with the domain spliced into every slot, verbatim: each
      slot contributes exactly the characters of the domain. */
  function Fill(t: Template, domain: string): (r: string)
    ensures |r| == LiteralLength(t) + Slots(t) * |domain|
    ensures |t| == 1 ==> r == (if t[0].Lit? then t[0].text else domain)
  {
    if t == [] then ""
    else (if t[0].Lit? then t[0].text else domain) + Fill(t[1..], domain)
  }

  /** Filling works segment by segment: the filled concatenation of two
      templates is the concatenation of their fillings. */
  lemma {:induction false} FillAppend(t1: Template, t2: Template, domain: string)
    ensures Fill(t1 + t2, domain) == Fill(t1, domain) + Fill(t2, domain)
    decreases |t1|
  {
    if t1 == [] {
      assert t1 + t2 == t2;
    } else {
      assert (t1 + t2)[1..] == t1[1..] + t2;
      FillAppend(t1[1..], t2, domain);
    }
  }

  /** The shape of every slotted command of the catalogue: the domain sits
      verbatim between the two literals, with no escaping. */
  lemma FillVerbatim(a: string, b: string, domain: string)
    ensures Fill([Lit(a), DomainSlot, Lit(b)], domain) == a + domain + b
  {
    var t := [Lit(a), DomainSlot, Lit(b)];
    assert t[1..] == [DomainSlot, Lit(b)] && t[1..][1..] == [Lit(b)];
    assert Fill(t[1..], domain) == domain + b;
    assert Fill(t, domain) == a + (domain + b);
  }

  lemma {:induction false} MulCancel(a: nat, x: nat, y: nat)
    requires a > 0 && a * x == a * y
    ensures x == y
  {
  }

  /** A command that mentions the domain determines it: no slot escapes,
      truncates or rewrites what it receives. */
  lemma {:induction false} FillInjective(t: Template, d1: string, d2: string)
    requires Slots(t) > 0
    requires Fill(t, d1) == Fill(t, d2)
    ensures d1 == d2
  {
    MulCancel(Slots(t), |d1|, |d2|);
    var rest1, rest2 := Fill(t[1..], d1), Fill(t[1..], d2);
    if t[0].Lit? {
      var x := t[0].text;
      assert (x + rest1)[|x|..] == rest1;
      assert (x + rest2)[|x|..] == rest2;
      FillInjective(t[1..], d1, d2);
    } else {
      assert (d1 + rest1)[..|d1|] == d1;
      assert (d2 + rest2)[..|d2|] == d2;
    }
  }

  /** A command without slots does not depend on the domain. */
  lemma {:induction false} FillConstant(t: Template, d1: string, d2: string)
    requires Slots(t) == 0
    ensures Fill(t, d1) == Fill(t, d2)
  {
    if t != [] {
      FillConstant(t[1..], d1, d2);
    }
  }

  datatype SectionTemplate = SectionTemplate(title: string, commands: seq<Template>)

  /** A catalogue section with the domain filled in. */
  datatype Section = Section(title: string, commands: seq<string>)

  /** The command catalogue, in page order. */
  const Catalogue: seq<SectionTemplate> := [
    SectionTemplate("Subdomain Discovery", [
      [Lit("subfinder -d "), DomainSlot, Lit(" -all -recursive")],
      [Lit("assetfinder --subs-only "), DomainSlot],
      [Lit("amass enum -d "), DomainSlot]]),
    SectionTemplate("HTTP Probing", [
      [Lit("httpx -l subdomains.txt -o live-hosts.txt")],
      [Lit("httpx -l subdomains.txt -title -status-code -tech-detect")]]),
    SectionTemplate("Vulnerability Scanning", [
      [Lit("nuclei -l live-hosts.txt -t cves/ -t vulnerabilities/")],
      [Lit("nuclei -u https://"), DomainSlot, Lit(" -tags cve,exposure")]]),
    SectionTemplate("URL Discovery", [
      [Lit("waybackurls "), DomainSlot, Lit(" | tee wayback-urls.txt")],
      [Lit("gau "), DomainSlot, Lit(" | tee gau-urls.txt")],
      [Lit("katana -u https://"), DomainSlot, Lit(" -o katana-urls.txt")]]),
    SectionTemplate("Parameter Discovery", [
      [Lit("paramspider -d "), DomainSlot],
      [Lit("arjun -u https://"), DomainSlot]]),
    SectionTemplate("JavaScript Analysis", [
      [Lit("subjs -i subdomains.txt")],
      [Lit("katana -u https://"), DomainSlot, Lit(" -js-crawl")],
      [Lit("python3 linkfinder.py -i https://"), DomainSlot, Lit(" -o results.html")]]),
    SectionTemplate("Port Scanning", [
      [Lit("naabu -host "), DomainSlot, Lit(" -top-ports 1000")],
      [Lit("nmap -sV -sC "), DomainSlot]])
  ]

  /** The catalogue for one cleaned domain: the same sections, titles and
      command order, each command its template filled with the domain. */
  function BuildSections(domain: string): (r: seq<Section>)
    ensures |r| == |Catalogue|
    ensures forall i :: 0 <= i < |r| ==>
      && r[i].title == Catalogue[i].title
      && |r[i].commands| == |Catalogue[i].commands|
      && forall j :: 0 <= j < |r[i].commands| ==>
           r[i].commands[j] == Fill(Catalogue[i].commands[j], domain)
  {
    seq(|Catalogue|, i requires 0 <= i < |Catalogue| =>
      Section(Catalogue[i].title,
        seq(|Catalogue[i].commands|, j requires 0 <= j < |Catalogue[i].commands| =>
          Fill(Catalogue[i].commands[j], domain))))
  }

  /** Every command of a section, in section order. */
  function AllCommands(sections: seq<Section>): seq<string>
  {
    if sections == [] then [] else sections[0].commands + AllCommands(sections[1..])
  }

  /** Seven sections, titled in page order, of 3, 2, 2, 3, 2, 3 and 2
      commands: seventeen in all. */
  lemma CatalogueShape(domain: string)
    ensures var r := BuildSections(domain);
      && |r| == 7
      && [r[0].title, r[1].title, r[2].title, r[3].title, r[4].title, r[5].title, r[6].title]
         == ["Subdomain Discovery", "HTTP Probing", "Vulnerability Scanning", "URL Discovery",
             "Parameter Discovery", "JavaScript Analysis", "Port Scanning"]
      && [|r[0].commands|, |r[1].commands|, |r[2].commands|, |r[3].commands|,
          |r[4].commands|, |r[5].commands|, |r[6].commands|] == [3, 2, 2, 3, 2, 3, 2]
      && |AllCommands(r)| == 17
  {
    var r := BuildSections(domain);
    assert AllCommands(r[6..]) == r[6].commands;
    assert AllCommands(r[5..]) == r[5].commands + AllCommands(r[6..]);
    assert AllCommands(r[4..]) == r[4].commands + AllCommands(r[5..]);
    assert AllCommands(r[3..]) == r[3].commands + AllCommands(r[4..]);
    assert AllCommands(r[2..]) == r[2].commands + AllCommands(r[3..]);
    assert AllCommands(r[1..]) == r[1].commands + AllCommands(r[2..]);
  }

  /** Different domains give different catalogues: the first command of the
      first section holds the domain verbatim. */
  lemma BuildSectionsInjective(d1: string, d2: string)
    requires BuildSections(d1) == BuildSections(d2)
    ensures d1 == d2
  {
    var t := Catalogue[0].commands[0];
    assert Slots(t) == 1;
    assert BuildSections(d1)[0].commands[0] == Fill(t, d1);
    FillInjective(t, d1, d2);
  }

  /** One rendered element of an output panel. */
  datatype Item =
    | Warning(text: string)        // the red paragraph of the empty-input guard
    | CountHeading(count: nat)     // "Generated URLs (n)" above the variants
    | Heading(text: string)        // a fixed heading
    | UrlItem(url: string)         // a `.url-text` span with its copy button
    | SectionTitle(title: string)  // a catalogue section's `<h4>`
    | CommandItem(command: string) // a `.command-text` code element with its copy button

  /** The texts "Copy All" collects from the URL items, in document order. */
  function UrlTexts(items: seq<Item>): seq<string>
  {
    if items == [] then []
    else (if items[0].UrlItem? then [items[0].url] else []) + UrlTexts(items[1..])
  }

  /** The texts "Copy All" collects from the command items, in document order. */
  function CommandTexts(items: seq<Item>): seq<string>
  {
    if items == [] then []
    else (if items[0].CommandItem? then [items[0].command] else []) + CommandTexts(items[1..])
  }

  lemma {:induction false} UrlTextsAppend(a: seq<Item>, b: seq<Item>)
    ensures UrlTexts(a + b) == UrlTexts(a) + UrlTexts(b)
  {
    if a == [] {
      assert a + b == b;
    } else {
      assert (a + b)[1..] == a[1..] + b;
      UrlTextsAppend(a[1..], b);
    }
  }

  lemma {:induction false} CommandTextsAppend(a: seq<Item>, b: seq<Item>)
    ensures CommandTexts(a + b) == CommandTexts(a) + CommandTexts(b)
  {
    if a == [] {
      assert a + b == b;
    } else {
      assert (a + b)[1..] == a[1..] + b;
      CommandTextsAppend(a[1..], b);
    }
  }

  /** The variants panel: a heading with the count, then one item per URL,
      in list order (the `forEach` that appends to the panel's markup). */
  method RenderVariants(variants: seq<string>) returns (items: seq<Item>)
    ensures |items| == |variants| + 1
    ensures items[0] == CountHeading(|variants|)
    ensures forall i :: 1 <= i < |items| ==> items[i] == UrlItem(variants[i - 1])
    ensures UrlTexts(items) == variants
    ensures CommandTexts(items) == []
  {
    items := [CountHeading(|variants|)];
    var i := 0;
    while i < |variants|
      invariant 0 <= i <= |variants|
      invariant |items| == i + 1
      invariant items[0] == CountHeading(|variants|)
      invariant forall k :: 1 <= k < |items| ==> items[k] == UrlItem(variants[k - 1])
      invariant UrlTexts(items) == variants[..i]
      invariant CommandTexts(items) == []
    {
      UrlTextsAppend(items, [UrlItem(variants[i])]);
      CommandTextsAppend(items, [UrlItem(variants[i])]);
      items := items + [UrlItem(variants[i])];
      assert variants[..i + 1] == variants[..i] + [variants[i]];
      i := i + 1;
    }
    assert variants[..i] == variants;
  }

  /** The heading above the commands. */
  const CommandsHeading := "Bug Bounty Commands"

  /** One command item per command, in order. */
  function CommandItems(cmds: seq<string>): (r: seq<Item>)
    ensures |r| == |cmds| && forall i :: 0 <= i < |r| ==> r[i] == CommandItem(cmds[i])
  {
    if cmds == [] then [] else [CommandItem(cmds[0])] + CommandItems(cmds[1..])
  }

  /** Rendering one more command appends its item, behind any head of items. */
  lemma CommandItemsSnoc(head: seq<Item>, cmds: seq<string>, c: nat)
    requires c < |cmds|
    ensures CommandItems(cmds[..c + 1]) == CommandItems(cmds[..c]) + [CommandItem(cmds[c])]
    ensures head + CommandItems(cmds[..c + 1]) == head + CommandItems(cmds[..c]) + [CommandItem(cmds[c])]
  {
    var a := CommandItems(cmds[..c + 1]);
    var b := CommandItems(cmds[..c]) + [CommandItem(cmds[c])];
    assert |a| == |b|;
    forall i | 0 <= i < |a| ensures a[i] == b[i] {
      if i < c {
        assert cmds[..c + 1][i] == cmds[..c][i];
      }
    }
  }

  /** A section as the panel shows it: its `<h4>` title, then its commands. */
  function SectionItems(section: Section): seq<Item>
  {
    [SectionTitle(section.title)] + CommandItems(section.commands)
  }

  /** The sections one after the other. */
  function SectionsItems(sections: seq<Section>): seq<Item>
  {
    if sections == [] then [] else SectionItems(sections[0]) + SectionsItems(sections[1..])
  }

  lemma {:induction false} CommandItemsTexts(cmds: seq<string>)
    ensures CommandTexts(CommandItems(cmds)) == cmds
    ensures UrlTexts(CommandItems(cmds)) == []
  {
    if cmds != [] {
      CommandTextsAppend([CommandItem(cmds[0])], CommandItems(cmds[1..]));
      UrlTextsAppend([CommandItem(cmds[0])], CommandItems(cmds[1..]));
      CommandItemsTexts(cmds[1..]);
    }
  }

  /** The command items of the rendered sections are all their commands in
      catalogue order, and there are no URL items among them. */
  lemma {:induction false} SectionsItemsTexts(sections: seq<Section>)
    ensures CommandTexts(SectionsItems(sections)) == AllCommands(sections)
    ensures UrlTexts(SectionsItems(sections)) == []
  {
    if sections != [] {
      var head := sections[0];
      CommandTextsAppend([SectionTitle(head.title)], CommandItems(head.commands));
      UrlTextsAppend([SectionTitle(head.title)], CommandItems(head.commands));
      CommandItemsTexts(head.commands);
      CommandTextsAppend(SectionItems(head), SectionsItems(sections[1..]));
      UrlTextsAppend(SectionItems(head), SectionsItems(sections[1..]));
      SectionsItemsTexts(sections[1..]);
    }
  }

  /** Rendering the first `n + 1` sections appends section `n` to the first `n`. */
  lemma {:induction false} SectionsItemsSnoc(sections: seq<Section>, n: nat)
    requires n < |sections|
    ensures SectionsItems(sections[..n + 1]) == SectionsItems(sections[..n]) + SectionItems(sections[n])
  {
    if n == 0 {
      assert SectionsItems(sections[..1][1..]) == [];
    } else {
      assert sections[..n + 1][1..] == sections[1..][..n];
      assert sections[..n][1..] == sections[1..][..n - 1];
      SectionsItemsSnoc(sections[1..], n - 1);
    }
  }

  /** The same step behind a fixed head of items. */
  lemma RenderedSnoc(head: seq<Item>, sections: seq<Section>, n: nat)
    requires n < |sections|
    ensures head + SectionsItems(sections[..n + 1])
         == head + SectionsItems(sections[..n]) + SectionItems(sections[n])
  {
    SectionsItemsSnoc(sections, n);
  }

  /** The commands panel: a heading, then per section its title followed by
      one item per command (the nested `forEach` loops). Its command items
      are every command of every section, in catalogue order. */
  method RenderCommands(sections: seq<Section>) returns (items: seq<Item>)
    ensures items == [Heading(CommandsHeading)] + SectionsItems(sections)
    ensures CommandTexts(items) == AllCommands(sections)
    ensures UrlTexts(items) == []
  {
    items := [Heading(CommandsHeading)];
    var s := 0;
    while s < |sections|
      invariant 0 <= s <= |sections|
      invariant items == [Heading(CommandsHeading)] + SectionsItems(sections[..s])
    {
      items := RenderSection(items, sections[s]);
      RenderedSnoc([Heading(CommandsHeading)], sections, s);
      s := s + 1;
    }
    assert sections[..s] == sections;
    CommandsPanelTexts(sections);
  }

  /** The commands panel's texts are the catalogue's commands, and it holds
      no URL text. */
  lemma CommandsPanelTexts(sections: seq<Section>)
    ensures CommandTexts([Heading(CommandsHeading)] + SectionsItems(sections)) == AllCommands(sections)
    ensures UrlTexts([Heading(CommandsHeading)] + SectionsItems(sections)) == []
  {
    CommandTextsAppend([Heading(CommandsHeading)], SectionsItems(sections));
    UrlTextsAppend([Heading(CommandsHeading)], SectionsItems(sections));
    SectionsItemsTexts(sections);
  }

  /** One section appended to the commands panel: its title, then its
      commands in order. */
  method RenderSection(before: seq<Item>, section: Section) returns (items: seq<Item>)
    ensures items == before + SectionItems(section)
  {
    ghost var head := before + [SectionTitle(section.title)];
    var cmds := section.commands;
    assert cmds[..0] == [];
    items := before + [SectionTitle(section.title)];
    var c := 0;
    while c < |cmds|
      invariant 0 <= c <= |cmds|
      invariant items == head + CommandItems(cmds[..c])
    {
      CommandItemsSnoc(head, cmds, c);
      items := items + [CommandItem(cmds[c])];
      c := c + 1;
    }
    assert cmds[..c] == cmds;
    assert head + CommandItems(cmds) == before + SectionItems(section);
  }

  /** "Copy All": the collected item texts joined by a single line feed.
      Its length is the items' plus one line feed between each two, and as
      long as no item contains a line feed it splits back into the items. */
  function CopyAllText(texts: seq<string>): (r: string)
    ensures texts == [] ==> r == ""
    ensures texts != [] ==> |r| == TotalLength(texts) + |texts| - 1
    ensures texts != [] && (forall i :: 0 <= i < |texts| ==> '\n' !in texts[i]) ==>
      Split(r, '\n') == texts
  {
    JoinFacts(texts);
    Join(texts, "\n")
  }

  lemma JoinFacts(texts: seq<string>)
    ensures texts != [] ==> |Join(texts, "\n")| == TotalLength(texts) + |texts| - 1
    ensures texts != [] && (forall i :: 0 <= i < |texts| ==> '\n' !in texts[i]) ==>
      Split(Join(texts, "\n"), '\n') == texts
  {
    if texts != [] {
      JoinLength(texts, "\n");
      if forall i :: 0 <= i < |texts| ==> '\n' !in texts[i] {
        SplitJoin(texts, '\n');
      }
    }
  }
}
