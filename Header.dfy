/** The breadcrumb of `createHeader` in js/common.js: the Home link followed
    by the caller's path items, joined by " / ", inside a breadcrumb block;
    nothing at all when the breadcrumb is switched off. The logo link and
    the rest of the header markup are not modelled. */
module Header {
  import opened Text

  const HomeCrumb := "<a href=\"/index.html\">\U{1F3E0} Home</a>"
  const CrumbSeparator := " / "
  const BreadcrumbOpen := "<div class=\"breadcrumb\">"
  const BreadcrumbClose := "</div>"

  /** The crumbs joined by the separator, always beginning with Home. */
  function Trail(path: seq<string>): (r: string)
    ensures StartsWith(r, HomeCrumb)
    ensures path == [] ==> r == HomeCrumb
  {
    var crumbs := [HomeCrumb] + path;
    assert crumbs[1..] == path;
    Join(crumbs, CrumbSeparator)
  }

  /** `breadcrumbHTML`: empty unless `showBreadcrumb`, otherwise the trail
      wrapped in the breadcrumb block. */
  function Breadcrumb(show: bool, path: seq<string>): (r: string)
    ensures !show ==> r == ""
    ensures show ==> StartsWith(r, BreadcrumbOpen + HomeCrumb)
    ensures show ==> |r| >= |BreadcrumbClose| && r[|r| - |BreadcrumbClose|..] == BreadcrumbClose
    ensures show && path == [] ==> r == BreadcrumbOpen + HomeCrumb + BreadcrumbClose
  {
    if show then BreadcrumbOpen + Trail(path) + BreadcrumbClose else ""
  }

  /** Each further path item lengthens the trail by one separator and the
      item, in order. */
  lemma TrailSnoc(path: seq<string>, x: string)
    ensures Trail(path + [x]) == Trail(path) + CrumbSeparator + x
    ensures Breadcrumb(true, path + [x])
         == BreadcrumbOpen + Trail(path) + CrumbSeparator + x + BreadcrumbClose
  {
    assert [HomeCrumb] + (path + [x]) == ([HomeCrumb] + path) + [x];
    JoinSnoc([HomeCrumb] + path, x, CrumbSeparator);
    var t := Trail(path + [x]);
    assert t == Trail(path) + CrumbSeparator + x;
    assert Breadcrumb(true, path + [x]) == BreadcrumbOpen + t + BreadcrumbClose;
  }

  /** The shown breadcrumb holds the Home link, every item and one separator
      between each two, and the block's tags. */
  lemma BreadcrumbLength(path: seq<string>)
    ensures |Breadcrumb(true, path)| == |BreadcrumbOpen| + |HomeCrumb| + TotalLength(path)
      + |path| * |CrumbSeparator| + |BreadcrumbClose|
  {
    var crumbs := [HomeCrumb] + path;
    assert crumbs[1..] == path;
    JoinLength(crumbs, CrumbSeparator);
  }
}
