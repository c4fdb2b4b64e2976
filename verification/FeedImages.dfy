/** Image links of a feed item: https normalisation and de-duplication. */
module FeedImages {
  import opened Text

  const Http := "http://"
  const Https := "https://"
  const MaxAdditional := 10

  /** normaliseURL: trimmed, moved to https; anything else becomes empty. */
  function NormaliseUrl(url: string): (r: string)
    ensures r != "" ==> StartsWith(r, Https) && Trimmed(r)
  {
    var u := TrimSpace(url);
    if u == "" then ""
    else
      var secure := if StartsWith(u, Http) then Https + u[7..] else u;
      if !StartsWith(secure, Https) then "" else
        assert secure[0] == 'h';
        assert |secure| > 8 || secure == Https;
        secure
  }

  lemma NormaliseIdempotent(url: string)
    ensures NormaliseUrl(NormaliseUrl(url)) == NormaliseUrl(url)
  {
    NormalIsFixed(NormaliseUrl(url));
  }

  lemma NormalIsFixed(u: string)
    requires u == "" || (StartsWith(u, Https) && Trimmed(u))
    ensures NormaliseUrl(u) == u
  {
    TrimTrimmed(u);
    assert Https[4] == 's' && Http[4] == ':';
    if u != "" { assert u[4] == 's'; }
  }

  /** A link is lost exactly when, trimmed, it names neither scheme. */
  lemma NormaliseLoses(url: string)
    ensures NormaliseUrl(url) == "" <==> !StartsWith(TrimSpace(url), Http) && !StartsWith(TrimSpace(url), Https)
  {
  }

  /** A trimmed https link stays as it is, and of an http link only the scheme changes. */
  lemma NormaliseKeepsRest(rest: string)
    requires Trimmed("https://" + rest) && Trimmed("http://" + rest)
    ensures NormaliseUrl("https://" + rest) == "https://" + rest
    ensures NormaliseUrl("http://" + rest) == "https://" + rest
  {
    TrimTrimmed("https://" + rest);
    TrimTrimmed("http://" + rest);
    assert ("https://" + rest)[4] == 's' && ("http://" + rest)[4] == ':' && ("http://" + rest)[7..] == rest;
  }

  /** The distinct normalised links other than the primary, in the order they first appear. */
  function Distinct(primary: string, links: seq<string>): seq<string> {
    DistinctBy(NormaliseUrl, primary, links)
  }

  /** The same for any way of normalising links. */
  function DistinctBy(norm: string -> string, primary: string, links: seq<string>): seq<string> {
    if links == [] then []
    else Keep(primary, DistinctBy(norm, primary, links[..|links| - 1]), norm(links[|links| - 1]))
  }

  function Keep(primary: string, kept: seq<string>, u: string): seq<string> {
    if u == "" || u == primary || u in kept then kept else kept + [u]
  }

  lemma DistinctNext(norm: string -> string, primary: string, links: seq<string>, n: nat)
    requires n < |links|
    ensures DistinctBy(norm, primary, links[..n + 1]) ==
      Keep(primary, DistinctBy(norm, primary, links[..n]), norm(links[n]))
  {
    assert links[..n + 1][..n] == links[..n];
  }

  function FirstTen(links: seq<string>): seq<string> {
    if |links| <= MaxAdditional then links else links[..MaxAdditional]
  }

  /** What the map of seen links holds. */
  ghost predicate Tracks(seen: set<string>, primary: string, kept: seq<string>) {
    forall u :: u in seen <==> u in kept || (u == primary && u != "")
  }

  lemma TracksNext(seen: set<string>, primary: string, kept: seq<string>, u: string)
    requires Tracks(seen, primary, kept)
    ensures Keep(primary, kept, u) == (if u == "" || u in seen then kept else kept + [u])
    ensures u != "" ==> Tracks(seen + {u}, primary, Keep(primary, kept, u))
  {
  }

  method DeduplicateImages(primary: string, additional: seq<string>) returns (out: seq<string>)
    ensures out == FirstTen(Distinct(primary, additional))
    ensures var all := Distinct(primary, additional); out == if |all| <= 10 then all else all[..10]
  {
    out := DeduplicateBy(NormaliseUrl, primary, additional);
  }

  method DeduplicateBy(norm: string -> string, primary: string, additional: seq<string>) returns (out: seq<string>)
    ensures out == FirstTen(DistinctBy(norm, primary, additional))
  {
    var seen: set<string> := {};
    if primary != "" { seen := {primary}; }
    out := [];
    for n := 0 to |additional|
      invariant out == DistinctBy(norm, primary, additional[..n]) && |out| < MaxAdditional && Tracks(seen, primary, out)
    {
      var u := norm(additional[n]);
      DistinctNext(norm, primary, additional, n);
      TracksNext(seen, primary, out, u);
      if u == "" { continue; }
      if u in seen { continue; }
      seen := seen + {u};
      out := out + [u];
      if |out| == MaxAdditional {
        DistinctPrefix(norm, primary, additional, n + 1);
        return;
      }
    }
    assert additional[..|additional|] == additional;
  }

  lemma {:induction false} DistinctPrefix(norm: string -> string, primary: string, links: seq<string>, n: nat)
    requires n <= |links|
    ensures DistinctBy(norm, primary, links[..n]) <= DistinctBy(norm, primary, links)
    decreases |links|
  {
    if n < |links| {
      assert links[..|links| - 1][..n] == links[..n];
      DistinctPrefix(norm, primary, links[..|links| - 1], n);
    } else {
      assert links[..n] == links;
    }
  }

  predicate NoRepeats(s: seq<string>) {
    forall i, j :: 0 <= i < j < |s| ==> s[i] != s[j]
  }

  /** u is the normalised form of one of the links. */
  ghost predicate Offered(norm: string -> string, links: seq<string>, u: string) {
    exists i :: 0 <= i < |links| && norm(links[i]) == u
  }

  /** The kept links are exactly the offered ones, each once. */
  lemma {:induction false} DistinctIsExact(norm: string -> string, primary: string, links: seq<string>)
    ensures NoRepeats(DistinctBy(norm, primary, links))
    ensures forall u :: u in DistinctBy(norm, primary, links) <==> Offered(norm, links, u) && u != "" && u != primary
  {
    if links != [] {
      var n := |links| - 1;
      DistinctIsExact(norm, primary, links[..n]);
      var last := norm(links[n]);
      forall u ensures Offered(norm, links, u) <==> Offered(norm, links[..n], u) || u == last {
        OfferedSnoc(norm, links, n, u);
      }
    }
  }

  lemma OfferedSnoc(norm: string -> string, links: seq<string>, n: nat, u: string)
    requires |links| == n + 1
    ensures Offered(norm, links, u) <==> Offered(norm, links[..n], u) || u == norm(links[n])
  {
    if Offered(norm, links[..n], u) {
      var i :| 0 <= i < n && norm(links[..n][i]) == u;
      assert links[i] == links[..n][i];
    }
    if Offered(norm, links, u) && u != norm(links[n]) {
      var i :| 0 <= i < |links| && norm(links[i]) == u;
      assert links[..n][i] == links[i];
    }
  }

  /** Links that are already clean are kept as they are. */
  lemma {:induction false} DistinctOfClean(norm: string -> string, primary: string, links: seq<string>)
    requires NoRepeats(links)
    requires forall u :: u in links ==> u != "" && u != primary && norm(u) == u
    ensures DistinctBy(norm, primary, links) == links
  {
    if links != [] {
      var n := |links| - 1;
      var before, last := links[..n], links[n];
      assert links == before + [last];
      assert forall u :: u in before ==> u in links;
      DistinctOfClean(norm, primary, before);
      assert last in links && last !in before;
      assert norm(last) == last;
    }
  }

  /** De-duplicating twice changes nothing. */
  lemma DeduplicateIdempotent(primary: string, links: seq<string>)
    ensures var once := FirstTen(Distinct(primary, links)); FirstTen(Distinct(primary, once)) == once
  {
    var all := Distinct(primary, links);
    var once := FirstTen(all);
    DistinctIsExact(NormaliseUrl, primary, links);
    forall u | u in once ensures u != "" && u != primary && NormaliseUrl(u) == u {
      assert u in all;
      var i :| 0 <= i < |links| && NormaliseUrl(links[i]) == u;
      NormaliseIdempotent(links[i]);
    }
    DistinctOfClean(NormaliseUrl, primary, once);
  }

  // ----- Splitting a product's images into the primary one and the others -----

  datatype Image = Image(url: string, isPrimary: bool)

  function Secure(url: string): string {
    if StartsWith(url, Http) then Https + url[7..] else url
  }

  /** The images with their URLs moved to https. */
  function Secured(images: seq<Image>): (r: seq<Image>)
    ensures |r| == |images| && forall i :: 0 <= i < |images| ==> r[i] == images[i].(url := Secure(images[i].url))
  {
    if images == [] then []
    else
      var last := images[|images| - 1];
      Secured(images[..|images| - 1]) + [last.(url := Secure(last.url))]
  }

  /** The first image marked primary that has a URL. */
  function Marked(images: seq<Image>): string {
    if images == [] then ""
    else if images[0].isPrimary && images[0].url != "" then images[0].url
    else Marked(images[1..])
  }

  function Urls(images: seq<Image>): (urls: seq<string>)
    ensures |urls| == |images| && forall i :: 0 <= i < |images| ==> urls[i] == images[i].url
  {
    if images == [] then [] else [images[0].url] + Urls(images[1..])
  }

  /** All images but the marked one and the marked ones without a URL before it. */
  function Others(images: seq<Image>): seq<string> {
    if images == [] then []
    else if !images[0].isPrimary then [images[0].url] + Others(images[1..])
    else if images[0].url == "" then Others(images[1..])
    else Urls(images[1..])
  }

  method SecureUrl(url: string) returns (r: string)
    ensures r == Secure(url)
  {
    r := url;
    if StartsWith(r, Http) { r := Https + r[7..]; }
  }

  /** What has been decided, and what the rest of the images still decides. */
  ghost predicate Partitioned(images: seq<Image>, primary: string, all: seq<string>, rest: seq<Image>) {
    && Marked(images) == (if primary != "" then primary else Marked(rest))
    && Others(images) == all + (if primary != "" then Urls(rest) else Others(rest))
  }

  lemma PartitionChosen(images: seq<Image>, all: seq<string>, rest: seq<Image>)
    requires rest != [] && rest[0].isPrimary && Partitioned(images, "", all, rest)
    ensures Partitioned(images, rest[0].url, all, rest[1..])
  {
  }

  lemma PartitionSkipped(images: seq<Image>, primary: string, all: seq<string>, rest: seq<Image>)
    requires rest != [] && (primary != "" || !rest[0].isPrimary) && Partitioned(images, primary, all, rest)
    ensures Partitioned(images, primary, all + [rest[0].url], rest[1..])
  {
    var tail := if primary != "" then Urls(rest[1..]) else Others(rest[1..]);
    assert (if primary != "" then Urls(rest) else Others(rest)) == [rest[0].url] + tail;
    MoveOver(all, rest[0].url, tail);
  }

  lemma MoveOver(a: seq<string>, x: string, b: seq<string>)
    ensures a + ([x] + b) == (a + [x]) + b
  {
  }

  lemma FirstTenSnoc(all: seq<string>, x: string)
    ensures FirstTen(all + [x]) == if |FirstTen(all)| < MaxAdditional then FirstTen(all) + [x] else FirstTen(all)
  {
  }

  method PartitionImages(images: seq<Image>) returns (primary: string, additional: seq<string>)
    ensures primary == if Marked(Secured(images)) == "" && images != [] then Secure(images[0].url)
                       else Marked(Secured(images))
    ensures var all := Others(Secured(images)); additional == if |all| <= 10 then all else all[..10]
  {
    primary, additional := "", [];
    ghost var all: seq<string> := [];
    ghost var secured := Secured(images);
    for n := 0 to |images|
      invariant Partitioned(secured, primary, all, secured[n..]) && additional == FirstTen(all)
    {
      var url := SecureUrl(images[n].url);
      ghost var rest := secured[n..];
      assert rest[1..] == secured[n + 1..] && rest[0] == secured[n];
      if images[n].isPrimary && primary == "" {
        PartitionChosen(secured, all, rest);
        primary := url;
      } else {
        PartitionSkipped(secured, primary, all, rest);
        FirstTenSnoc(all, url);
        all := all + [url];
        if |additional| < MaxAdditional { additional := additional + [url]; }
      }
    }
    assert Others(secured) == all;
    if primary == "" && |images| > 0 { primary := SecureUrl(images[0].url); }
  }

  function NotMarked(images: seq<Image>): seq<string> {
    if images == [] then []
    else if images[0].isPrimary then NotMarked(images[1..])
    else [images[0].url] + NotMarked(images[1..])
  }

  /** The primary image is the first marked one with a URL; the others are the unmarked ones before it and
      everything behind it. */
  lemma {:induction false} PartitionMeans(before: seq<Image>, chosen: Image, behind: seq<Image>)
    requires chosen.isPrimary && chosen.url != ""
    requires forall image :: image in before ==> !image.isPrimary || image.url == ""
    ensures Marked(before + [chosen] + behind) == chosen.url
    ensures Others(before + [chosen] + behind) == NotMarked(before) + Urls(behind)
  {
    var images := before + [chosen] + behind;
    if before == [] {
      assert images[0] == chosen && images[1..] == behind;
    } else {
      assert before[0] in before && images[0] == before[0];
      assert images[1..] == before[1..] + [chosen] + behind;
      PartitionMeans(before[1..], chosen, behind);
      if !before[0].isPrimary { PieceInFront(before[0].url, NotMarked(before[1..]), Urls(behind)); }
    }
  }

  lemma PieceInFront(x: string, a: seq<string>, b: seq<string>)
    ensures [x] + (a + b) == ([x] + a) + b
  {
  }

  /** There is none exactly when no image with a URL is marked. */
  lemma {:induction false} NoneMarked(images: seq<Image>)
    ensures Marked(images) == "" <==> forall k :: 0 <= k < |images| ==> !(images[k].isPrimary && images[k].url != "")
  {
    if images != [] {
      NoneMarked(images[1..]);
      assert forall k :: 0 < k < |images| ==> images[1..][k - 1] == images[k];
    }
  }

  /** With no image marked, the first one becomes primary and is still listed among the others,
      until the de-duplication of the feed item takes it out. */
  lemma UnmarkedRepeatsFirst(images: seq<Image>)
    requires images != [] && forall i :: 0 <= i < |images| ==> !images[i].isPrimary
    ensures var s := Secured(images); Marked(s) == "" && Others(s) == Urls(s) && Others(s)[0] == Secure(images[0].url)
    ensures var primary := NormaliseUrl(Secure(images[0].url)); primary !in Distinct(primary, Others(Secured(images)))
  {
    Unmarked(Secured(images));
    var primary := NormaliseUrl(Secure(images[0].url));
    DistinctIsExact(NormaliseUrl, primary, Others(Secured(images)));
  }

  lemma {:induction false} Unmarked(images: seq<Image>)
    requires forall i :: 0 <= i < |images| ==> !images[i].isPrimary
    ensures Marked(images) == "" && Others(images) == Urls(images)
  {
    if images != [] { Unmarked(images[1..]); }
  }
}
