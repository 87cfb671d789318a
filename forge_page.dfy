/**
  What both Forge providers read from a Forge download page once it is
  parsed: one row per download, each with a version cell and a list of
  links. Every selector call that may throw (and is wrapped in `try?`) is an
  `Option` here.
*/
module ForgePage {
  import opened Wrappers
  import opened Text
  import opened Seqs

  /** An `<a>` element; `href` is `None` when reading the attribute throws. */
  datatype Anchor = Anchor(href: Option<string>)

  /**
    The `td.download-version` cell. `promoLatest` and `promoRecommended` are
    the results of selecting the promotion icons: the number of icons found,
    or `None` when the selector throws.
  */
  datatype VersionCell = VersionCell(text: Option<string>, promoLatest: Option<nat>, promoRecommended: Option<nat>)

  /**
    A download row (a `tbody` block for the older provider): its first
    version cell, if any, and the anchors of its link list, `None` when the
    list cannot be selected.
  */
  datatype Row = Row(versionCell: Option<VersionCell>, links: Option<seq<Anchor>>)

  /** A link Forge does not route through its ad service and that points at an installer. */
  predicate InstallerHref(href: string) {
    !Contains(href, "adfoc.us") && Contains(href, "-installer.jar")
  }

  /** The `href` attributes that can be read, in document order. */
  function Hrefs(anchors: seq<Anchor>): (hrefs: seq<string>)
    ensures forall h :: h in hrefs ==> Anchor(Some(h)) in anchors
  {
    if anchors == [] then []
    else if anchors[0].href.Some? then [anchors[0].href.value] + Hrefs(anchors[1..])
    else Hrefs(anchors[1..])
  }

  /** The link a row is downloaded from: the first readable `href` that is an installer link. */
  function InstallerLink(anchors: seq<Anchor>): (link: Option<string>)
    ensures link.Some? ==> InstallerHref(link.value) && Anchor(Some(link.value)) in anchors
    ensures link.None? <==> forall a :: a in anchors && a.href.Some? ==> !InstallerHref(a.href.value)
    ensures link.Some? ==>
      exists k :: 0 <= k < |anchors| && anchors[k].href == link &&
        forall j :: 0 <= j < k && anchors[j].href.Some? ==> !InstallerHref(anchors[j].href.value)
  {
    var hrefs := Hrefs(anchors);
    assert forall a :: a in anchors && a.href.Some? ==> a.href.value in hrefs by {
      forall a | a in anchors && a.href.Some? {
        HrefsComplete(anchors, a);
      }
    }
    FirstInstallerAnchor(anchors);
    var k := FirstIndex(anchors, IsInstallerAnchor());
    assert k < |anchors| ==> anchors[k].href == First(hrefs, InstallerHref);
    First(hrefs, InstallerHref)
  }

  /** An anchor whose `href` can be read and is an installer link. */
  function IsInstallerAnchor(): Anchor -> bool {
    (a: Anchor) => a.href.Some? && InstallerHref(a.href.value)
  }

  /** The first installer link among the readable hrefs is the href of the first anchor that has one. */
  lemma {:induction false} FirstInstallerAnchor(anchors: seq<Anchor>)
    ensures var k := FirstIndex(anchors, IsInstallerAnchor());
      First(Hrefs(anchors), InstallerHref) == if k < |anchors| then anchors[k].href else None
  {
    if anchors != [] {
      var rest := anchors[1..];
      FirstInstallerAnchor(rest);
      var h := anchors[0].href;
      if h.Some? {
        assert Hrefs(anchors) == [h.value] + Hrefs(rest);
        assert ([h.value] + Hrefs(rest))[1..] == Hrefs(rest);
      }
    }
  }

  /** Reading the hrefs distributes over concatenation, so they come in anchor order. */
  lemma {:induction false} HrefsAppend(a: seq<Anchor>, b: seq<Anchor>)
    ensures Hrefs(a + b) == Hrefs(a) + Hrefs(b)
  {
    if a == [] {
      assert a + b == b;
    } else {
      assert (a + b)[1..] == a[1..] + b;
      HrefsAppend(a[1..], b);
    }
  }

  lemma {:induction false} HrefsComplete(anchors: seq<Anchor>, a: Anchor)
    requires a in anchors && a.href.Some?
    ensures a.href.value in Hrefs(anchors)
  {
    if anchors[0] != a {
      HrefsComplete(anchors[1..], a);
    }
  }

  /** An ad link is never chosen, even when it comes first and names an installer. */
  lemma AdLinkSkipped(ad: string, rest: seq<Anchor>)
    requires Contains(ad, "adfoc.us")
    ensures InstallerLink([Anchor(Some(ad))] + rest) == InstallerLink(rest)
  {
    assert Hrefs([Anchor(Some(ad))] + rest) == [ad] + Hrefs(rest) by {
      assert ([Anchor(Some(ad))] + rest)[1..] == rest;
    }
  }
}
