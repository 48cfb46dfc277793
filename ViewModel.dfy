/** `BrowserViewModel` of the Android browser: the URL to load, the
    incognito and desktop-mode flags, the list of tab URLs appended to in
    place, and the user-agent selector. Each `MutableLiveData` is a field;
    a value that was never set is `None` (the URL) or the initial `false`
    (the flags). Observers and `clearData` are not modelled. */
module ViewModel {
  import opened Wrappers

  const HomeUrl := "https://github.com"
  const NewTabUrl := "https://duckduckgo.com"

  const DesktopUserAgent :=
    "Mozilla/5.0 (X11; Linux x86_64) AppleWebKit/537.36 (KHTML, like Gecko) Chrome/120.0.0.0 Safari/537.36"
  const MobileUserAgent :=
    "Mozilla/5.0 (Linux; Android 14; Pixel) AppleWebKit/537.36 (KHTML, like Gecko) Chrome/120.0.0.0 Mobile Safari/537.36"

  /** `userAgent(desktop)`: a Linux desktop browser, or an Android phone. */
  function UserAgent(desktop: bool): (r: string)
    ensures desktop ==> r == DesktopUserAgent
    ensures !desktop ==> r == MobileUserAgent
  {
    if desktop then DesktopUserAgent else MobileUserAgent
  }

  /** The two user agents differ, so the selector tells the modes apart. */
  lemma UserAgentsDiffer(a: bool, b: bool)
    ensures UserAgent(a) == UserAgent(b) <==> a == b
  {
    assert |DesktopUserAgent| == 101 && |MobileUserAgent| == 115;
  }

  class BrowserViewModel {
    var url: Option<string>
    var incognito: bool
    var desktop: bool
    var tabs: seq<string>

    /** The tab list always starts with the home tab. */
    predicate Valid()
      reads this
    {
      |tabs| >= 1 && tabs[0] == HomeUrl
    }

    constructor ()
      ensures Valid()
      ensures url == None && !incognito && !desktop && tabs == [HomeUrl]
    {
      url := None;
      incognito := false;
      desktop := false;
      tabs := [HomeUrl];
    }

    /** `isIncognito`. */
    function IsIncognito(): bool
      reads this
    {
      incognito
    }

    /** `desktopMode`. */
    function DesktopMode(): bool
      reads this
    {
      desktop
    }

    method LoadUrl(u: string)
      modifies this`url
      ensures url == Some(u)
    {
      url := Some(u);
    }

    method AddTab()
      requires Valid()
      modifies this`tabs
      ensures Valid()
      ensures |tabs| == |old(tabs)| + 1 && tabs[|tabs| - 1] == NewTabUrl
      ensures tabs[..|old(tabs)|] == old(tabs)
    {
      tabs := tabs + [NewTabUrl];
    }

    method SetIncognito(value: bool)
      modifies this`incognito
      ensures IsIncognito() == value
    {
      incognito := value;
    }

    method SetDesktopMode(value: bool)
      modifies this`desktop
      ensures DesktopMode() == value
    {
      desktop := value;
    }
  }
}
