/** `MainActivity` of the Android browser: what the address bar turns its
    input into, which URLs are handed to another app instead of the web
    view, the file name a download is saved under, and the handlers of the
    incognito switch, the desktop-mode toggle and the add-tab button.
    `Uri.encode` and launching an external app are functions the model
    receives; the web view is reduced to the user-agent string it is
    configured with. */
module Browser {
  import opened Wrappers
  import opened Text
  import opened ViewModel

  const SearchHost := "https://duckduckgo"
  const SearchPrefix := SearchHost + ".com/?q="
  const SecureScheme := "https://"

  /** `loadInput`: input with a dot is a URL, given `https://` unless it
      already starts with `http`; anything else becomes a search. `encode`
      is `Uri.encode`. */
  function ResolveInput(input: string, encode: string -> string): (url: string)
    ensures StartsWith(url, "http") && '.' in url
    ensures '.' in input ==>
      (|url| >= |input| && url[|url| - |input|..] == input && url[..|url| - |input|] in {"", SecureScheme})
    ensures '.' in input && StartsWith(input, "http") ==> url == input
    ensures '.' !in input ==> url == SearchPrefix + encode(input)
  {
    assert SearchPrefix[|SearchHost|] == '.';
    if '.' in input then
      if StartsWith(input, "http") then input
      else
        assert (SecureScheme + input)[..8] == SecureScheme;
        assert (SecureScheme + input)[8..] == input;
        SecureScheme + input
    else
      var url := SearchPrefix + encode(input);
      assert url[|SearchHost|] == '.';
      assert url[..4] == "http";
      url
  }

  /** Submitting the address bar again after it shows the resolved URL
      loads the same URL. */
  lemma ResolveInputStable(input: string, encode: string -> string)
    ensures ResolveInput(ResolveInput(input, encode), encode) == ResolveInput(input, encode)
  {
  }

  /** The dotted-input test is on the prefix `http` only: a host name that
      happens to begin with those letters is loaded without any scheme. */
  lemma HttpPrefixIsNotScheme(encode: string -> string)
    ensures ResolveInput("httpbin.org", encode) == "httpbin.org"
  {
    assert "httpbin.org"[4] == 'b';
    assert "httpbin.org"[7] == '.';
  }

  /** `shouldOverrideUrlLoading`: a missing URL and any URL starting with
      `http` stay in the web view; any other URL is handed to another app,
      and is overridden exactly when that launch does not throw. */
  function ShouldOverride(url: Option<string>, launches: string -> bool): (r: bool)
    ensures r ==> url.Some? && !StartsWith(url.value, "http")
    ensures url.Some? && !StartsWith(url.value, "http") ==> (r <==> launches(url.value))
  {
    match url
    case None => false
    case Some(target) => if StartsWith(target, "http") then false else launches(target)
  }

  /** Nothing typed into the address bar is ever handed to another app. */
  lemma TypedInputStaysInWebView(input: string, encode: string -> string, launches: string -> bool)
    ensures !ShouldOverride(Some(ResolveInput(input, encode)), launches)
  {
  }

  const FilenameKey := "filename="
  const DefaultFilename := "download.bin"

  /** The download's file name: what follows the first `filename=` of the
      `Content-Disposition` value (`download.bin` when there is none), with
      every double quote deleted. */
  function DownloadFilename(contentDisposition: string): (name: string)
    ensures '"' !in name
    ensures IndexOf(contentDisposition, FilenameKey).None? ==> name == DefaultFilename
    ensures IndexOf(contentDisposition, FilenameKey).Some? ==>
      name == RemoveAll(contentDisposition[IndexOf(contentDisposition, FilenameKey).value + |FilenameKey|..], '"')
  {
    match IndexOf(contentDisposition, FilenameKey)
    case None =>
      assert '"' !in DefaultFilename;
      DefaultFilename
    case Some(i) => RemoveAll(contentDisposition[i + |FilenameKey|..], '"')
  }

  /** Everything after the first `filename=` is the name, quotes removed,
      whatever comes before it. */
  lemma DownloadFilenameAfterKey(prefix: string, rest: string)
    requires forall k :: 0 <= k < |prefix| ==> !OccursAt(prefix + FilenameKey + rest, FilenameKey, k)
    ensures DownloadFilename(prefix + FilenameKey + rest) == RemoveAll(rest, '"')
  {
    var s := prefix + FilenameKey + rest;
    assert s[|prefix|..|prefix| + |FilenameKey|] == FilenameKey;
    assert OccursAt(s, FilenameKey, |prefix|);
    assert s[|prefix| + |FilenameKey|..] == rest;
  }

  /** A quoted file name comes back without its quotes. */
  lemma DownloadFilenameQuoted(name: string)
    requires '"' !in name
    ensures DownloadFilename("attachment; filename=\"" + name + "\"") == name
  {
    var prefix := "attachment; ";
    var rest := "\"" + name + "\"";
    var s := prefix + FilenameKey + rest;
    assert s == "attachment; filename=\"" + name + "\"";
    forall k | 0 <= k < |prefix|
      ensures !OccursAt(s, FilenameKey, k)
    {
      var words := prefix + "filename";
      assert '=' !in words;
      assert s[k + 8] == words[k + 8];
      assert FilenameKey[8] == '=';
    }
    DownloadFilenameAfterKey(prefix, rest);
    RemoveAllAppend("\"" + name, "\"", '"');
    RemoveAllAppend("\"", name, '"');
  }

  /** The snackbar text after the desktop toggle. */
  function DesktopMessage(on: bool): (m: string)
    ensures StartsWith(m, "Desktop mode ")
    ensures m[|m| - 2..] == "on" <==> on
  {
    if on then "Desktop mode on" else "Desktop mode off"
  }

  const DownloadFailed := "Download failed"

  /** How a download attempt ends: the download manager took the request,
      it threw a `SecurityException` (caught), or some other exception
      escaped the listener. */
  datatype DownloadOutcome = Enqueued | SecurityFailure | OtherFailure

  /** The snackbar text after a download was handed to the download
      manager: the file name on success, a fixed failure message otherwise. */
  function DownloadMessage(filename: string, enqueued: bool): (m: string)
    ensures enqueued ==> StartsWith(m, "Downloading ") && m[12..] == filename
    ensures !enqueued ==> m == DownloadFailed
  {
    if enqueued then "Downloading " + filename else DownloadFailed
  }

  class MainActivity {
    const vm: BrowserViewModel
    /** Whether the window carries `FLAG_SECURE`. */
    var secureWindow: bool
    /** The user-agent string of the current web view. */
    var webUserAgent: string
    /** The last snackbar shown. */
    var snackbar: Option<string>

    /** The web view is always configured for the view model's mode. */
    predicate Valid()
      reads this, vm
    {
      vm.Valid() && webUserAgent == UserAgent(vm.desktop)
    }

    /** `onCreate` with a fresh view model: `setupWebView` configures the
        web view for the current mode. */
    constructor (model: BrowserViewModel)
      requires model.Valid()
      ensures vm == model && Valid()
      ensures !secureWindow && snackbar == None
    {
      vm := model;
      secureWindow := false;
      webUserAgent := UserAgent(model.desktop);
      snackbar := None;
    }

    /** The address bar's GO action. */
    method LoadInput(input: string, encode: string -> string)
      modifies vm`url
      ensures vm.url == Some(ResolveInput(input, encode))
    {
      var url := ResolveInput(input, encode);
      vm.LoadUrl(url);
    }

    /** The incognito switch: the flag follows the switch, the window is
        secured exactly when it is on, and the observer of the flag sets up
        a new web view for the current mode. */
    method OnIncognitoChanged(isChecked: bool)
      requires Valid()
      modifies vm`incognito, this`secureWindow, this`webUserAgent
      ensures Valid()
      ensures vm.IsIncognito() == isChecked && secureWindow == isChecked
    {
      vm.SetIncognito(isChecked);
      webUserAgent := UserAgent(vm.DesktopMode());
      if isChecked {
        secureWindow := true;
      } else {
        secureWindow := false;
      }
    }

    /** The desktop toggle: the mode flips, the observer reconfigures the
        web view, and the snackbar reports the new mode. */
    method OnDesktopToggle()
      requires Valid()
      modifies vm`desktop, this`webUserAgent, this`snackbar
      ensures Valid()
      ensures vm.DesktopMode() == !old(vm.DesktopMode())
      ensures snackbar == Some(DesktopMessage(vm.DesktopMode()))
    {
      vm.SetDesktopMode(!vm.DesktopMode());
      webUserAgent := UserAgent(vm.DesktopMode());
      snackbar := Some(DesktopMessage(vm.DesktopMode()));
    }

    /** The add-tab button: one tab is appended, a new web view is set up,
        and the last tab is loaded. */
    method OnAddTab()
      requires Valid()
      modifies vm`tabs, vm`url, this`webUserAgent
      ensures Valid()
      ensures vm.tabs == old(vm.tabs) + [NewTabUrl]
      ensures vm.url == Some(NewTabUrl)
    {
      vm.AddTab();
      webUserAgent := UserAgent(vm.DesktopMode());
      vm.LoadUrl(vm.tabs[|vm.tabs| - 1]);
    }

    /** The download listener: the request is saved under the extracted
        name. Only a `SecurityException` is caught, and it is reported as a
        failed download; any other exception (from the request set-up, which
        sits outside the `try`, or from the service lookup and `enqueue`)
        leaves the listener with the snackbar untouched, and `escaped` says
        so. */
    method OnDownload(contentDisposition: string, outcome: DownloadOutcome)
      returns (filename: string, escaped: bool)
      modifies this`snackbar
      ensures filename == DownloadFilename(contentDisposition)
      ensures escaped <==> outcome.OtherFailure?
      ensures escaped ==> snackbar == old(snackbar)
      ensures !escaped ==> snackbar == Some(DownloadMessage(filename, outcome.Enqueued?))
    {
      filename := DownloadFilename(contentDisposition);
      match outcome
      case OtherFailure =>
        escaped := true;
      case Enqueued =>
        escaped := false;
        snackbar := Some(DownloadMessage(filename, true));
      case SecurityFailure =>
        escaped := false;
        snackbar := Some(DownloadMessage(filename, false));
    }
  }
}
