# Bug-bounty lab and browser: a Dafny model

This project models the deterministic core of the bug-bounty lab repository. It has two JavaScript parts and two Android parts.

- **The recon page script** (`js/main.js`):
  - reads a domain from the input: it trims the input, rejects a blank value, then strips one scheme and one `www.`;
  - lists fourteen URL variants of that domain;
  - fills a seven-section catalogue of tool commands;
  - implements the "Copy All" newline join;
  - contains the HTML-entity encoder and the encoder/decoder's error handling;
  - derives the current page's name from the path;
  - has `switchTab` and `addCopyButtonsToCodeBlocks`.
- **The shared lab script** (`js/common.js`):
  - `detectSQLInjection`, an ordered first-match search over seven case-insensitive, unanchored regular expressions;
  - the breadcrumb built by `createHeader`.
- **The browser activity** (`MainActivity.kt`):
  - what the address bar turns its input into;
  - which links are handed to another app;
  - the file name a download is saved under;
  - the incognito, desktop-mode and add-tab handlers.
- **The browser view model** (`BrowserViewModel.kt`): the current URL, two flags, the tab list it appends to, and the user-agent selector.

The Dafny files and what they hold:

- `Text.dfy`: the string operations both languages use.
  - `startsWith`, `indexOf`, `join`, one-character `split`, and deleting every occurrence of a character.
  - ECMAScript's `trim`, with its exact whitespace set.
- `Recon.dfy`: the pure part of `js/main.js`.
  - Domain cleaning and the blank-input guard.
  - The variant list and the command catalogue. A catalogue entry is a template whose domain slots are filled verbatim.
  - The rendering loops, written as methods that build the list of rendered items.
  - The "Copy All" text.
- `Encoding.dfy`:
  - The HTML-entity encoder and a reference decoder for its five entities.
  - The encode and decode dispatch over the browser built-ins.
- `ReconPage.dfy`: the page state that the script changes in place. It is a `Page` class with the two output panels, the tab panes and buttons, the code blocks and the encoder output.
- `SqlDetect.dfy`: the detector.
  - Each expression of the table has the form `p1.*?p2.*?…`, so a match is modelled exactly as: the literal pieces occur in order without overlapping, with no line terminator between them, ignoring ASCII case.
  - The last expression's final piece is an alternation of four literals.
- `Header.dfy`: the breadcrumb string.
- `ViewModel.dfy` and `Browser.dfy`: the `BrowserViewModel` and `MainActivity` classes.
  - The activity's web view is reduced to the user-agent string it is configured with.

**Behaviour of the code worth knowing.**

- Cleaning strips at most one `http://`/`https://` and then at most one `www.`, both case-sensitive. It is not idempotent: `www.www.a` cleans to `www.a`, and that cleans to `a`.
- Path, query and fragment are kept. Nothing is truncated at `/`, `?` or `#`.
- The blank check runs before stripping, so `https://` alone passes the guard and yields items built from the empty domain.
- "Copy All" separates items with one newline.
- A failed decode overwrites the output box with the error text, replacing the previous output.
- A failed encode has no handler. The exception escapes and the output box keeps its old value.

## Model

`Encoding.EncodeResult`, `Encoding.DecodeResult`, `Recon.BuildSections` and `ViewModel.UserAgent` are dispatch tables. Each one picks a built-in, a template or a constant by case, so their contracts list the cases. The substance is in their partners: `HtmlRoundTrip`, the `DecodePayload` contract, `CatalogueShape` with `BuildSectionsInjective` and `FillVerbatim`, and `UserAgentsDiffer`.

| member | source | states |
|---|---|---|
| Text.Trim | js/main.js:104 | `value.trim()`: the result has no ECMAScript whitespace or line terminator at either end. It is empty exactly when the input is all whitespace. |
| Text.TrimSlice | js/main.js:104 | The trimmed value is a contiguous slice of the input, and every character dropped before or after it is whitespace. |
| Text.TrimIdempotent | js/main.js:170 | Trimming a trimmed value changes nothing. |
| Text.IndexOf | app/src/main/java/com/nick/browser/ui/MainActivity.kt:124 | `indexOf`: the first index where the pattern occurs, and no earlier one. `None` exactly when it occurs nowhere. |
| Text.Split | js/main.js:8 | `split('/')`: at least one piece, and no piece contains the separator. |
| Text.SplitStep | js/main.js:8 | The first piece is the text before the first separator, and the rest is the split of what follows it. |
| Text.JoinSplit | js/main.js:8 | Joining the pieces with the separator gives back the input, so the split loses nothing. |
| Text.SplitJoin | js/main.js:155 | Splitting a newline join gives back the items, when no item contains a newline. |
| Text.JoinSnoc | js/common.js:30-31 | Joining one more item adds exactly one separator and that item at the end. |
| Text.JoinLength | js/common.js:31 | The joined text's length is the items' lengths plus one separator between each two. |
| Text.RemoveAll | app/src/main/java/com/nick/browser/ui/MainActivity.kt:124 | `replace("\"", "")`: the result has no such character. Every other character keeps its count, and a string without it is unchanged. |
| Text.RemoveAllAppend | app/src/main/java/com/nick/browser/ui/MainActivity.kt:124 | Deleting a character from a concatenation deletes it from each part. |
| Recon.StripScheme | js/main.js:112 | A leading `https://` or `http://` is removed, and a value with neither is unchanged. |
| Recon.StripWww | js/main.js:112 | A leading `www.` is removed, and a value without it is unchanged. |
| Recon.CleanDomain | js/main.js:112 | The cleaned domain is a suffix of the trimmed input. What was removed is one of `""`, `www.`, `http://`, `https://`, `http://www.`, `https://www.`, and no longer one of these is a prefix of the input. |
| Recon.CleanDomainRemoves | js/main.js:112 | What remains is a suffix of the input, and the removed prefix is one of the six removable ones. It is exactly the scheme the input starts with (`https://`, `http://` or nothing), followed by `www.` when what is left after the scheme starts with it. |
| Recon.CleanDomainLongest | js/main.js:112 | No removable prefix of the input is longer than what cleaning removed. |
| Recon.SchemesExclusive | js/main.js:112 | No value starts with both `https://` and `http://`, so at most one scheme is removed. |
| Recon.NoSchemeBeforeWww | js/main.js:112 | A value starting with `www.` starts with no scheme. |
| Recon.SchemePart | js/main.js:112 | Removing the scheme takes off exactly the leading `https://`, else the leading `http://`, else nothing. |
| Recon.WwwPart | js/main.js:112 | Removing `www.` takes off exactly a leading `www.`, else nothing. |
| Recon.CleanDomainFixedPoint | js/main.js:177 | Cleaning leaves a value unchanged exactly when it starts with neither a scheme nor `www.`. |
| Recon.CleanDomainNotIdempotent | js/main.js:112 | For any tail `t`, `www.www.t` cleans to `www.t`, and cleaning again gives `t`: cleaning is not idempotent. |
| Recon.CleanDomainKeepsPath | js/main.js:112 | `https://www.` followed by any text cleans to exactly that text, so path, query and fragment survive. |
| Recon.ReadDomain | js/main.js:104-112 | The input is rejected exactly when it is all whitespace. Otherwise the domain is the cleaned trimmed value. |
| Recon.SchemeOnlyPassesGuard | js/main.js:170-177 | `https://` passes the blank check and yields the empty domain. |
| Recon.Variants | js/main.js:114-129 | Exactly fourteen variants: the i-th is the i-th fixed scheme-and-subdomain literal of the page followed by the cleaned domain, so each ends in the domain. |
| Recon.VariantsAreHttp | js/main.js:114-129 | Every variant starts with `http`. |
| Recon.VariantsDistinct | js/main.js:114-129 | The fourteen variants are pairwise different. |
| Recon.VariantsInjective | js/main.js:114-129 | Different domains give different variant lists. |
| Recon.Fill | js/main.js:183-229 | A filled template's length is its literal text plus one copy of the domain per slot. A lone slot gives exactly the domain, and a lone literal gives exactly its text. |
| Recon.FillAppend | js/main.js:183-229 | Filling works segment by segment: the filling of two templates joined is the two fillings joined. With `Fill`'s single-segment cases this pins every filled command. |
| Recon.FillVerbatim | js/main.js:183-229 | A command of the form literal, slot, literal is the first literal, the domain verbatim with no escaping, and the second literal. |
| Recon.FillInjective | js/main.js:183-229 | A command with a domain slot determines the domain it was filled with. |
| Recon.FillConstant | js/main.js:191-192 | A command without a slot is the same for every domain. |
| Recon.BuildSections | js/main.js:179-232 | One section per catalogue entry, with the same titles and counts. Each command is its template filled with the domain. |
| Recon.CatalogueShape | js/main.js:179-232 | Seven sections with 3, 2, 2, 3, 2, 3, 2 commands, seventeen in all. The titles are, in order, Subdomain Discovery, HTTP Probing, Vulnerability Scanning, URL Discovery, Parameter Discovery, JavaScript Analysis and Port Scanning. |
| Recon.BuildSectionsInjective | js/main.js:179-232 | Different domains give different catalogues. |
| Recon.UrlTextsAppend | js/main.js:154-155 | The URL texts of concatenated items are the concatenation of their URL texts. |
| Recon.CommandTextsAppend | js/main.js:261-262 | The same for command texts. |
| Recon.RenderVariants | js/main.js:131-145 | The loop renders the count heading, then one URL item per variant in order. No command items. |
| Recon.CommandItems | js/main.js:245-250 | One command item per command, in order. |
| Recon.CommandItemsTexts | js/main.js:245-250 | A section's command items carry exactly its commands as command texts and no URL text. |
| Recon.SectionsItemsTexts | js/main.js:241-252 | The items of all sections carry exactly the catalogue's commands, in order, and no URL text. |
| Recon.SectionsItemsSnoc | js/main.js:241-252 | Rendering one more section appends its title and then its command items. |
| Recon.CommandItemsSnoc | js/main.js:245-250 | Rendering one more command appends its item. |
| Recon.CommandsPanelTexts | js/main.js:234-252 | The commands panel's command texts are the catalogue's commands in order, and it has no URL text. |
| Recon.RenderCommands | js/main.js:234-252 | The panel is the `Commands` heading followed, for each section in order, by its title and then its command items. Its command texts are all sections' commands in order. No URL items. |
| Recon.RenderSection | js/main.js:242-251 | One section's loop appends the section's title and then one command item per command, after what was already rendered. |
| Recon.CopyAllText | js/main.js:155 | No items copy as the empty text. Otherwise the text is the items plus one newline between each two, and it splits back into exactly the items when none contains a newline. |
| Recon.JoinFacts | js/main.js:155 | The length and split-back facts of the newline join. |
| Encoding.HtmlEncode | js/main.js:341-345 | The result is never shorter and contains none of `< > " '`. Text without markup characters is unchanged. |
| Encoding.HtmlEncodeAppend | js/main.js:342 | The global replace works character by character: encoding a concatenation encodes each part. |
| Encoding.DecodeEntity | js/main.js:343 | Each of the five entities decodes back to its character. |
| Encoding.HtmlRoundTrip | js/main.js:341-345 | Decoding the five entities inverts the encoder on every input. |
| Encoding.EncodeResult | js/main.js:334-347 | The encoder fails exactly when `btoa` or `encodeURIComponent` throws on the chosen branch. `base64` and `url` give exactly what that built-in returns, `html` gives the entity encoding, and an unknown kind gives `""`. |
| Encoding.DecodeResult | js/main.js:361-378 | A throwing built-in yields exactly `Error: Invalid input for decoding`. Otherwise the result is the decoded text: `html` goes through the textarea, and an unknown kind gives `""`. |
| ReconPage.SplitLast | js/main.js:8 | The last piece of a split is the suffix after the separator's last occurrence. |
| ReconPage.CurrentPage | js/main.js:8 | The page name is never empty and has no `/`. It is `index.html` for an empty path or a trailing `/`. For any other path it is the suffix after the last `/`, so `/foo.html` gives `foo.html`. |
| ReconPage.LinkActive | js/main.js:14 | For a non-empty page name, a link is active exactly when its `href` equals it. |
| ReconPage.LinkActiveIsEquality | js/main.js:14 | The `currentPage === ''` alternative never fires, so a link is active exactly when its `href` equals the page name. |
| ReconPage.FirstKeyed | js/main.js:285-291 | The first element with the key in document order, or none: what `querySelector` returns, and what `getElementById` returns for a non-empty id. |
| ReconPage.Switched | js/main.js:271-295 | After switching, the keys are unchanged and at most one element is active. The active one is the first with the tab's name, and some element is active exactly when the name exists. |
| ReconPage.SwitchedIdempotent | js/main.js:271-295 | Switching to the same tab twice is the same as once. |
| ReconPage.FirstKeyedByKeys | js/main.js:285 | The lookup depends on the keys only, not on the current flags. |
| ReconPage.Deactivate | js/main.js:273-282 | The loop clears every flag and keeps every key. |
| ReconPage.ActivateFirst | js/main.js:285-294 | On cleared elements, activating the first match gives the switched state. |
| ReconPage.WithCopyButton | js/main.js:303-318 | A block with a copy button is untouched. Any other gains one button copying its text, and the text is unchanged. |
| ReconPage.Page.GenerateDomainVariants | js/main.js:98-148 | Without the tool nothing changes. A blank input shows exactly the warning. Otherwise the heading shows 14, the URL texts are the variants of the cleaned domain, and "Copy All" gives them one per line. |
| ReconPage.Page.GenerateCommands | js/main.js:164-255 | Without the tool nothing changes. A blank input shows exactly the warning. Otherwise the panel is the `Commands` heading followed by each section's title and command items for the cleaned domain, the command texts are that catalogue, and "Copy All" gives them one per line. |
| ReconPage.Page.CopyAllVariants | js/main.js:153-159 | No URL items copy as the empty text. Otherwise the copied text splits back into exactly the panel's URL texts when none contains a newline. |
| ReconPage.Page.CopyAllCommands | js/main.js:260-266 | The same for the command texts of the command panel. |
| ReconPage.Page.SwitchTab | js/main.js:271-295 | Buttons become the switched state for the tab's name. Panes do too for a non-empty name; for the empty name every pane is cleared and none is activated, because `getElementById('')` finds nothing. Nothing else changes. |
| ReconPage.Page.AddCopyButtonsToCodeBlocks | js/main.js:300-320 | Each block becomes `WithCopyButton` of itself, so every block holds a button. If all blocks already had one, the blocks are unchanged. |
| ReconPage.Page.EncodePayload | js/main.js:325-350 | A throwing built-in leaves the output box as it was. Otherwise the box holds the encoding. |
| ReconPage.Page.DecodePayload | js/main.js:352-379 | The box holds the decode result: the error text on failure, never the previous output. |
| ReconPage.CopiedVariantsSplit | js/main.js:153-155 | For a domain without a newline, the copied variants split back into the fourteen variants. |
| SqlDetect.FoldTerminator | js/common.js:207-213 | Case folding neither creates nor removes a line terminator. |
| SqlDetect.TestAt | js/common.js:217 | A match starting at any position makes `test` succeed. |
| SqlDetect.TestWitness | js/common.js:217 | `test` succeeds only where a match starts. |
| SqlDetect.TestSomewhere | js/common.js:217 | `test` succeeds exactly when a match starts at some position of the input. |
| SqlDetect.FirstMatch | js/common.js:216-224 | Gives the index of a matching rule such that no earlier rule matches, or `None` exactly when no rule matches. |
| SqlDetect.DetectSqlInjection | js/common.js:205-227 | Detected exactly when some expression matches. The report is the description and expression of the first matching rule in table order. |
| SqlDetect.LeadCase | js/common.js:207-213 | Anchored matching ignores ASCII case. |
| SqlDetect.AltCase | js/common.js:213 | The same for an alternation. |
| SqlDetect.GapCase | js/common.js:207-213 | The same for a `.*?` gap. |
| SqlDetect.TestCase | js/common.js:207-213 | The same for the unanchored search. |
| SqlDetect.FirstMatchCase | js/common.js:216-224 | The first matching rule ignores ASCII case. |
| SqlDetect.DetectIgnoresCase | js/common.js:207-213 | Inputs that differ only in ASCII letter case get the same result. |
| SqlDetect.AdminImpliesComment | js/common.js:209-210 | Any input matching `admin'.*?--` matches `'.*?--`. |
| SqlDetect.AdminBypassNeverReported | js/common.js:209-210 | "Admin bypass with comment" is never the reported description. |
| SqlDetect.LeadCut | js/common.js:207-213 | An anchored match ends before the first line terminator. |
| SqlDetect.AltCut | js/common.js:213 | The same for an alternation. |
| SqlDetect.GapCut | js/common.js:207-213 | The same for a `.*?` gap. |
| SqlDetect.MatchWithinOneLine | js/common.js:207-213 | Whatever matches in two parts joined by a line terminator matches in one of the parts. |
| SqlDetect.RulesOnOneLine | js/common.js:207-213 | No literal of the table contains a line terminator. |
| SqlDetect.DetectionWithinOneLine | js/common.js:205-227 | An input is flagged only if one of the two parts around a line terminator is flagged on its own. |
| Header.Trail | js/common.js:30-31 | The crumbs always begin with the Home link. A trail with no path items is the Home link alone. |
| Header.Breadcrumb | js/common.js:28-32 | Empty unless the breadcrumb is shown. When shown, it opens the breadcrumb block with the Home link first and ends with the block's closing tag. |
| Header.TrailSnoc | js/common.js:30-31 | Each further path item appends one ` / ` and that item, in order. |
| Header.BreadcrumbLength | js/common.js:28-32 | The shown breadcrumb is exactly the tags, the Home link, every item and one separator per item. |
| ViewModel.UserAgent | app/src/main/java/com/nick/browser/viewmodel/BrowserViewModel.kt:51-57 | Desktop mode selects the X11 desktop string, and otherwise the Android mobile string. |
| ViewModel.UserAgentsDiffer | app/src/main/java/com/nick/browser/viewmodel/BrowserViewModel.kt:51-57 | Two modes give the same user agent exactly when they are the same mode. |
| ViewModel.BrowserViewModel.constructor | app/src/main/java/com/nick/browser/viewmodel/BrowserViewModel.kt:12-25 | Initially there is no URL, both flags are false, and the tabs are just the home page. |
| ViewModel.BrowserViewModel.LoadUrl | app/src/main/java/com/nick/browser/viewmodel/BrowserViewModel.kt:27-29 | The observable URL becomes the argument. Nothing else changes. |
| ViewModel.BrowserViewModel.AddTab | app/src/main/java/com/nick/browser/viewmodel/BrowserViewModel.kt:31-33 | One tab is appended. It is the new-tab page, earlier tabs are unchanged, and the home tab stays first. |
| ViewModel.BrowserViewModel.SetIncognito | app/src/main/java/com/nick/browser/viewmodel/BrowserViewModel.kt:35-37 | `isIncognito` becomes the argument. Nothing else changes. |
| ViewModel.BrowserViewModel.SetDesktopMode | app/src/main/java/com/nick/browser/viewmodel/BrowserViewModel.kt:39-41 | `desktopMode` becomes the argument. Nothing else changes. |
| Browser.ResolveInput | app/src/main/java/com/nick/browser/ui/MainActivity.kt:192-199 | The URL starts with `http` and contains a dot. Input with a dot is kept as the URL's tail, behind either nothing or `https://`, and unchanged if it already starts with `http`. Any other input becomes a search URL for its encoding. |
| Browser.ResolveInputStable | app/src/main/java/com/nick/browser/ui/MainActivity.kt:192-199 | Resolving a resolved URL again gives the same URL. |
| Browser.HttpPrefixIsNotScheme | app/src/main/java/com/nick/browser/ui/MainActivity.kt:194 | `httpbin.org` is loaded as typed, without a scheme. |
| Browser.ShouldOverride | app/src/main/java/com/nick/browser/ui/MainActivity.kt:85-94 | Overriding needs a URL that does not start with `http`. For such a URL it happens exactly when launching the other app succeeds. |
| Browser.TypedInputStaysInWebView | app/src/main/java/com/nick/browser/ui/MainActivity.kt:85-94 | No URL produced from the address bar is handed to another app. |
| Browser.DownloadFilename | app/src/main/java/com/nick/browser/ui/MainActivity.kt:124 | The name has no `"`. It is `download.bin` without a `filename=`. Otherwise it is the text after the first `filename=`, with the quotes deleted. |
| Browser.DownloadFilenameAfterKey | app/src/main/java/com/nick/browser/ui/MainActivity.kt:124 | Whatever precedes the first `filename=` does not affect the name. |
| Browser.DownloadFilenameQuoted | app/src/main/java/com/nick/browser/ui/MainActivity.kt:124 | `attachment; filename="n"` yields `n` for any `n` without quotes. |
| Browser.DesktopMessage | app/src/main/java/com/nick/browser/ui/MainActivity.kt:178 | The message names desktop mode and ends in `on` exactly when the mode is now on. |
| Browser.DownloadMessage | app/src/main/java/com/nick/browser/ui/MainActivity.kt:135-137 | A successful enqueue reports `Downloading` and the name. A caught `SecurityException` reports `Download failed`. |
| Browser.MainActivity.constructor | app/src/main/java/com/nick/browser/ui/MainActivity.kt:37-49 | The web view is configured with the view model's user agent, and the window is not secured. |
| Browser.MainActivity.LoadInput | app/src/main/java/com/nick/browser/ui/MainActivity.kt:192-199 | The view model's URL becomes the resolved input. |
| Browser.MainActivity.OnIncognitoChanged | app/src/main/java/com/nick/browser/ui/MainActivity.kt:167-174 | The flag follows the switch, and the window is secured exactly when the switch is on. The web view stays configured for the current mode. |
| Browser.MainActivity.OnDesktopToggle | app/src/main/java/com/nick/browser/ui/MainActivity.kt:176-179 | The mode flips, and the snackbar reports the new mode. |
| Browser.MainActivity.OnAddTab | app/src/main/java/com/nick/browser/ui/MainActivity.kt:185-189 | One new-tab page is appended and then loaded. The home tab stays first. |
| Browser.MainActivity.OnDownload | app/src/main/java/com/nick/browser/ui/MainActivity.kt:123-138 | The name returned is `DownloadFilename(contentDisposition)`. A successful enqueue or a `SecurityException` sets the matching snackbar. Any other exception escapes the listener and leaves the snackbar unchanged. |

## Left out

- Markup and styling are not modelled. The HTML strings, `innerHTML` assignment and CSS classes are reduced to lists of items (headings, URL and command texts, tab flags, code blocks with their buttons).
- Markup in an item is not modelled. Each rendered item's text is taken to be the URL or command it was built from. A domain containing markup characters would be parsed as HTML, and its `textContent` would differ.
- "Copy All" is modelled on the panel's own items. It queries every `.url-text` / `.command-text` of the whole document.
- ReconPage.Page.SwitchTab: its requires excludes tab names containing `"`, `\` or a line break. With those, the text spliced into the attribute selector is no longer the plain tab name: `\` starts a CSS escape, `"` ends the quoted value early (the rest may still form a valid selector list, or a malformed one that makes `querySelector` throw), and a line break makes the string invalid. The model does not cover those names.
- ReconPage.Page.SwitchTab: `getElementById` searches the whole document, and the `onclick` selector matches any element with that attribute. The model assumes that each hit is one of the page's tab panes or tab buttons.
- ReconPage.Page.AddCopyButtonsToCodeBlocks does not model the button text becoming part of the block's `textContent`. Each button copies the text the block had when the button was added.
- The clipboard is not modelled: `copyToClipboard`, `fallbackCopy` and `showCopyFeedback`, along with the promise and timer they use.
- `initializeNavigation`'s menu listeners and the `DOMContentLoaded` wiring are not modelled. Only the current-page derivation and the link-activity test are.
- The browser built-ins `btoa`, `atob`, `encodeURIComponent`, `decodeURIComponent` and the textarea entity decoding cannot be seen. They are parameters (partial functions in a `Builtins` value), and no behaviour is claimed for them.
- Encoding.HtmlEncode: the contract does not say that `&` is also rewritten. `HtmlRoundTrip` pins the whole mapping down instead.
- Strings are sequences of Unicode scalar values, not UTF-16 code units.
- The rest of `js/common.js` is not modelled: the banner, header logo and footer markup, `escapeHTML`, `highlightSQLInjection`, `showStatus`, `copyToClipboard`, `addCopyButtons`, `createCountdownTimer` and the other DOM helpers. They serialise the DOM, rewrite markup with regular-expression back-references, or run timers.
- `detectSQLInjection` reports the matching expression as its list of literal pieces, not as a `RegExp` object. General regular expressions are not modelled.
- Web-view configuration is reduced to the user agent. Zoom, storage, cookies, the file chooser, back/forward/reload, page-progress callbacks, night mode and the other activities are left out.
- The LiveData observers are reduced to their effect. They run synchronously on the handler that sets a value, so the effect is folded into that handler. The URL observer's page load is not modelled.
- `clearData` is not modelled: it deletes cookies, web storage and directories.
- Download requests are not modelled beyond the file name: MIME type, headers and notification settings are left out.
- Browser.DownloadFilename does not model a missing `Content-Disposition`. Java passes it as a platform type, and a null value would throw at `substringAfter`.
- Uri.encode and launching another app are external. They are parameters: `encode`, and a `launches` predicate that is false when the launch throws.
- Browser.MainActivity.OnDownload receives how the request set-up, service lookup and `enqueue` ended as its `outcome` parameter. The download manager itself is not modelled.
