/** The footer's link helper: a plain anchor for in-page targets, the
    router's `Link` for everything else. */
module Footer {
  import opened Text

  datatype Rendered = Anchor(href: string, className: string) | RouterLink(href: string, className: string)

  /** `href.startsWith("#")`: a section of the current page. */
  predicate IsInternalAnchor(href: string) {
    StartsWith(href, "#")
  }

  /** `href.startsWith("/") && !href.includes("#")`: a page of the site. */
  predicate IsRouterLink(href: string) {
    StartsWith(href, "/") && !Includes(href, "#")
  }

  /** `href.startsWith("/#")`: a section of the home page. */
  predicate IsHomeWithAnchor(href: string) {
    StartsWith(href, "/#")
  }

  /** The helper's choice. The computed `IsRouterLink` flag is never
      consulted: the router link is the fall-through for every other
      href. */
  function LinkFor(href: string, className: string): (r: Rendered)
    ensures r.href == href && r.className == className
    ensures r.Anchor? <==> IsInternalAnchor(href) || IsHomeWithAnchor(href)
  {
    if IsInternalAnchor(href) then Anchor(href, className)
    else if IsHomeWithAnchor(href) then Anchor(href, className)
    else RouterLink(href, className)
  }

  /** Searching for a one-character string finds exactly its members. */
  lemma IncludesChar(s: string, c: char)
    ensures Includes(s, [c]) <==> c in s
  {
    IncludesIffOccurs(s, [c]);
    if c in s {
      var i :| 0 <= i < |s| && s[i] == c;
      assert s[i..i + 1] == [c];
      assert OccursAt(s, [c], i);
    }
    if i :| OccursAt(s, [c], i) {
      assert s[i] == s[i..i + 1][0];
    }
  }

  /** Starting with a one-character string is having it first. */
  lemma StartsWithChar(s: string, c: char)
    ensures StartsWith(s, [c]) <==> |s| > 0 && s[0] == c
  {
    if |s| > 0 && s[0] == c {
      assert s[..1] == [c];
    }
  }

  /** The three flags as the comments describe them: the anchor kinds
      exclude each other and the page-link kind, so every page link goes
      to the router. */
  lemma KindsAreExclusive(href: string, className: string)
    ensures !(IsInternalAnchor(href) && IsHomeWithAnchor(href))
    ensures IsRouterLink(href) ==> !IsInternalAnchor(href) && !IsHomeWithAnchor(href)
    ensures IsRouterLink(href) ==> LinkFor(href, className).RouterLink?
  {
    StartsWithChar(href, '#');
    StartsWithChar(href, '/');
    if IsHomeWithAnchor(href) {
      assert href[..2] == "/#";
      assert href[0] == '/' && href[1] == '#';
      IncludesChar(href, '#');
    }
  }

  /** The converse fails: an absolute URL is neither kind of anchor nor a
      page link, and still gets the router link. */
  lemma AbsoluteUrlGetsRouterLink(url: string)
    requires url == "https://x"
    ensures !IsRouterLink(url) && LinkFor(url, "").RouterLink?
  {
    assert url[0] == 'h';
    StartsWithChar(url, '/');
    StartsWithChar(url, '#');
    assert !IsHomeWithAnchor(url) by {
      assert url[..2] != "/#" by { assert url[..2][0] == 'h'; }
    }
  }

  /** Nor is a page path with a fragment, which gets the router link too. */
  lemma FragmentPathGetsRouterLink(path: string)
    requires path == "/blog#top"
    ensures !IsRouterLink(path) && LinkFor(path, "").RouterLink?
  {
    assert path[0] == '/' && path[1] == 'b' && path[5] == '#';
    IncludesChar(path, '#');
    StartsWithChar(path, '#');
    assert !IsHomeWithAnchor(path) by {
      assert path[..2] != "/#" by { assert path[..2][1] == 'b'; }
    }
  }

  /** The footer's own kinds of href: the social icons and home sections
      are anchors, the blog is a page link and gets the router. */
  lemma FooterHrefs(social: string, section: string, blog: string)
    requires social == "#" && section == "/#services" && blog == "/blog"
    ensures LinkFor(social, "").Anchor?
    ensures LinkFor(section, "").Anchor?
    ensures IsRouterLink(blog) && LinkFor(blog, "").RouterLink?
  {
    assert social[..1] == "#";
    assert section[..2] == "/#";
    assert blog[0] == '/' && blog[1] == 'b' && blog[2] == 'l' && blog[3] == 'o' && blog[4] == 'g';
    IncludesChar(blog, '#');
    StartsWithChar(blog, '/');
    StartsWithChar(blog, '#');
    assert !IsHomeWithAnchor(blog) by {
      assert blog[..2] != "/#" by { assert blog[..2][1] == 'b'; }
    }
    KindsAreExclusive(blog, "");
  }
}
