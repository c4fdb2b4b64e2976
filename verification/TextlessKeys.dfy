/** Feed cache keys of requests without session and query: no text of another request can imitate one. */
module TextlessKeys {
  import opened Common
  import opened Text
  import opened FeedRequests
  import opened FeedCacheKey

  lemma {:induction false} PartIsIn(labels: seq<string>, values: seq<Option<string>>, k: nat, t: nat)
    requires k <= t < |labels| == |values| && values[t].Some?
    ensures labels[t] + "=" + values[t].value in Parts(labels, values, k)
    decreases t - k
  {
    if k < t { PartIsIn(labels, values, k + 1, t); }
  }

  lemma SameLabel(a: string, b: string, value: string)
    requires Free(a, '=') && Free(b, '=') && a + "=" <= b + "=" + value
    ensures a == b
  {
    var part := b + "=" + value;
    CutAtFirst(a, b, part[|a| + 1..], value, '=');
  }

  /** A part that starts with a label and an equals sign is the part of that label. */
  lemma StartsLikePart(labels: seq<string>, values: seq<Option<string>>, t: nat, part: string)
    requires t < |labels| == |values| && GoodLabels(labels)
    requires part in Parts(labels, values, 0) && labels[t] + "=" <= part
    ensures values[t].Some?
  {
    PartsLabelled(labels, values, 0, part);
    var i :| 0 <= i < |labels| && values[i].Some? && part == labels[i] + "=" + values[i].value;
    SameLabel(labels[t], labels[i], values[i].value);
  }

  /** What precedes the fields starts with no label. */
  lemma HeadIsNoPart(p: Printed, t: nat)
    requires t == 1 || t == 3
    requires Free(p.feedType, '=')
    ensures !(Labels[t] + "=" <= p.feedType) && !(Labels[t] + "=" <= LimitText(p.limit))
  {
    assert (Labels[t] + "=")[|Labels[t]|] == '=';
    assert LimitText(p.limit)[0] == 'l' && Labels[1][0] == 's' && Labels[3][0] == 'q';
  }

  /** A field printed on one side is printed on the other, whose parts are the pieces of the first. */
  lemma FieldIsAmongPieces(labels: seq<string>, x: seq<Option<string>>, y: seq<Option<string>>,
                           before: seq<string>, behind: seq<string>, t: nat)
    requires t < |labels| == |x| == |y| && GoodLabels(labels) && Free(labels[t], ':') && y[t].Some?
    requires forall k :: 0 <= k < |before| ==> !(labels[t] + "=" <= before[k])
    requires before + Parts(labels, x, 0) == CutAll(behind + Parts(labels, y, 0), ':')
    ensures x[t].Some?
  {
    var start := labels[t] + "=";
    var part := start + y[t].value;
    PartIsIn(labels, y, 0, t);
    CutAllKeepsStart(behind + Parts(labels, y, 0), part, start, ':');
    var pieces := before + Parts(labels, x, 0);
    var k :| 0 <= k < |pieces| && start <= pieces[k];
    assert k >= |before|;
    StartsLikePart(labels, x, t, Parts(labels, x, 0)[k - |before|]);
  }

  /** A key whose parts hold no separator shows each text that another printing of it shows. */
  lemma ShownAlike(a: Printed, b: Printed, t: nat)
    requires ColonFree(a) && Free(a.feedType, '=') && PrintKey(a) == PrintKey(b)
    requires (t == 1 || t == 3) && Values(b)[t].Some?
    ensures Values(a)[t].Some?
  {
    SameTails(a, b);
    LabelsAreGood();
    HeadIsNoPart(a, t);
    FieldIsAmongPieces(Labels, Values(a), Values(b), [a.feedType, LimitText(a.limit)],
                       [b.feedType, LimitText(b.limit)], t);
  }

  lemma SameTails(a: Printed, b: Printed)
    requires ColonFree(a) && PrintKey(a) == PrintKey(b)
    ensures Tail(a) == CutAll(Tail(b), ':')
  {
    KeyIsHeadAndTail(a);
    KeyIsHeadAndTail(b);
    var ta, tb := Join(Tail(a), [':']), Join(Tail(b), [':']);
    assert (Head + [':'] + ta)[|Head| + 1..] == ta && (Head + [':'] + tb)[|Head| + 1..] == tb;
    TailFree(a);
    CutAllJoins(Tail(b), ':');
    JoinInjective(Tail(a), CutAll(Tail(b), ':'), ':');
  }

  predicate Textless(r: Request) {
    r.sessionId.None? && r.query.None?
  }

  predicate Numberless(r: Request) {
    r.filters.priceMin.None? && r.filters.priceMax.None? && r.filters.minRating.None?
  }

  lemma FeedTypesPlain()
    ensures forall t :: t in FeedTypes ==> Free(t, '=')
  {
  }

  lemma TextlessPrintsAlone(p: Printed, q: Printed)
    requires p.sessionId.None? && p.query.None? && Free(p.feedType, '=')
    requires Free(p.feedType, ':') && Free(q.feedType, ':') && PrintKey(p) == PrintKey(q)
    ensures p == q
  {
    if q.sessionId.Some? { ShownAlike(p, q, 1); }
    if q.query.Some? { ShownAlike(p, q, 3); }
    KeyShowsRequest(p, q);
  }

  /** A request without session and query shares its key only with requests that print the same, whatever
      texts they carry; one that has no numbers either is alone under its key. */
  lemma TextlessKeyIsExact(lower: string -> string, a: Request, b: Request)
    requires Validated(a) && Validated(b) && Textless(a)
    ensures Key(lower, a) == Key(lower, b) <==> PrintedOf(lower, a) == PrintedOf(lower, b)
    ensures Key(lower, a) == Key(lower, b) && Numberless(a) ==> a == b
  {
    if Key(lower, a) == Key(lower, b) {
      assert !Fails(a, InvalidFeedType) && !Fails(b, InvalidFeedType);
      FeedTypesFree();
      FeedTypesPlain();
      TextlessPrintsAlone(PrintedOf(lower, a), PrintedOf(lower, b));
      if Numberless(a) { NumberlessIsAlone(lower, a, b); }
    }
  }

  lemma NumberlessIsAlone(lower: string -> string, a: Request, b: Request)
    requires Validated(a) && Validated(b) && Textless(a) && Numberless(a)
    requires PrintedOf(lower, a) == PrintedOf(lower, b)
    ensures a == b
  {
    assert Numberless(b) && Textless(b);
    ValidatedKeyIsExact(lower, a, b);
  }

  lemma NumberlessKeyIsOwn(lower: string -> string, a: Request, b: Request)
    requires Validated(a) && Validated(b) && Textless(a) && Numberless(a) && Key(lower, a) == Key(lower, b)
    ensures a == b
  {
    TextlessKeyIsExact(lower, a, b);
  }
}
