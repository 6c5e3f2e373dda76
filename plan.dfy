/**
 * gpt.py's post-processing of the model's answer in `generate_plan`: the parsed
 * items become step drafts (trimmed text, 1-based `order_index`, no due date,
 * not done), and drafts whose title is empty are dropped. The request to the
 * language model is not part of this model; its parsed answer is the input.
 */
module Plan {
  import opened Wrappers
  import opened Text
  import opened Tables
  import opened Seqs

  /**
   * One element of the JSON list the model returns, with the keys `generate_plan`
   * reads; `None` stands for a missing key or a JSON `null`.
   */
  datatype PlanItem = PlanItem(
    title: Option<string>, detail: Option<string>, metric: Option<string>,
    durationMin: Option<int>, why: Option<string>)

  /**
   * `_safe_json`: the parsed list, or `[]` when the text does not parse
   * (`None` here). The parser itself is not part of this model.
   */
  function SafeJson(parsed: Option<seq<PlanItem>>): (items: seq<PlanItem>)
    ensures parsed.None? ==> items == []
    ensures parsed.Some? ==> items == parsed.value
  {
    match parsed
    case None => []
    case Some(xs) => xs
  }

  /** `int(x) if x else None`: a missing or zero duration is dropped. */
  function DurationOf(x: Option<int>): (r: Option<int>)
    ensures r.Some? <==> x.Some? && x.value != 0
    ensures r.Some? ==> r == x
  {
    if x.Some? && x.value != 0 then x else None
  }

  /** The draft built for the item at 1-based position `pos`. */
  function NormaliseItem(item: PlanItem, pos: int): Draft
  {
    Draft(Some(pos), Some(Strip(OrEmpty(item.title))), Some(Strip(OrEmpty(item.detail))),
          Some(Strip(OrEmpty(item.metric))), DurationOf(item.durationMin),
          Some(Strip(OrEmpty(item.why))), None, Some(0))
  }

  /** The draft for the item at a 1-based position. */
  const DraftAt: (int, PlanItem) -> Draft := (pos: int, item: PlanItem) => NormaliseItem(item, pos)

  /** The list `out` the loop builds: one draft per item, numbered from 1. */
  function Normalised(items: seq<PlanItem>): seq<Draft>
  {
    Numbered(DraftAt, 1, items, |items|)
  }

  /** A draft survives the final filter when its title is a non-empty string. */
  predicate Titled(d: Draft)
  {
    d.title.Some? && d.title.value != []
  }

  /** The list comprehension that ends `generate_plan`. */
  function KeepTitled(drafts: seq<Draft>): seq<Draft>
  {
    Filter(drafts, Titled)
  }

  /** What `generate_plan` returns for the model's parsed answer. */
  function PlanOf(parsed: Option<seq<PlanItem>>): seq<Draft>
  {
    var items := SafeJson(parsed);
    KeepTitled(Normalised(items))
  }

  /** `generate_plan` from the parsed answer on. */
  method GeneratePlan(parsed: Option<seq<PlanItem>>) returns (plan: seq<Draft>)
    ensures plan == PlanOf(parsed)
    ensures parsed.None? ==> plan == []
    ensures |plan| <= |SafeJson(parsed)|
  {
    var items := SafeJson(parsed);
    var out := Enumerate(DraftAt, 1, items);
    plan := KeepTitled(out);
  }

  /** Draft `k` is built from item `k` at position `k + 1`. */
  lemma NormalisedAt(items: seq<PlanItem>)
    ensures |Normalised(items)| == |items|
    ensures forall k :: 0 <= k < |items| ==> Normalised(items)[k] == NormaliseItem(items[k], k + 1)
  {
    NumberedAt(DraftAt, 1, items, |items|);
  }

  /**
   * Every draft has trimmed text fields (a missing one as ""), no due date,
   * `done` 0, and its position as `order_index`.
   */
  lemma NormaliseItemShape(item: PlanItem, pos: int)
    ensures var d := NormaliseItem(item, pos);
      && d.orderIndex == Some(pos) && d.dueDate.None? && d.done == Some(0)
      && d.title.Some? && IsStripped(d.title.value) && PaddedBy(OrEmpty(item.title), d.title.value)
      && d.detail.Some? && IsStripped(d.detail.value) && PaddedBy(OrEmpty(item.detail), d.detail.value)
      && d.metric.Some? && IsStripped(d.metric.value) && PaddedBy(OrEmpty(item.metric), d.metric.value)
      && d.why.Some? && IsStripped(d.why.value) && PaddedBy(OrEmpty(item.why), d.why.value)
  {
    StripSpec(OrEmpty(item.title));
    StripSpec(OrEmpty(item.detail));
    StripSpec(OrEmpty(item.metric));
    StripSpec(OrEmpty(item.why));
  }

  /** Every draft carries an `order_index` between 1 and `n`. */
  ghost predicate IndexedUpTo(p: seq<Draft>, n: int)
  {
    forall i :: 0 <= i < |p| ==> p[i].orderIndex.Some? && 1 <= p[i].orderIndex.value <= n
  }

  /** `d` is the draft of the item its `order_index` names. */
  ghost predicate FromItem(items: seq<PlanItem>, d: Draft)
  {
    d.orderIndex.Some? && 1 <= d.orderIndex.value <= |items|
    && d == NormaliseItem(items[d.orderIndex.value - 1], d.orderIndex.value)
  }

  /** Each draft is the draft of the item its `order_index` names. */
  ghost predicate FromItems(items: seq<PlanItem>, p: seq<Draft>)
  {
    forall i :: 0 <= i < |p| ==> FromItem(items, p[i])
  }

  /** `a` comes from an earlier item than `b`. */
  predicate Before(a: Draft, b: Draft)
  {
    a.orderIndex.Some? && b.orderIndex.Some? && a.orderIndex.value < b.orderIndex.value
  }

  /** The `order_index` values strictly increase along `p`. */
  ghost predicate IncreasingOrder(p: seq<Draft>)
  {
    forall i, j :: 0 <= i < j < |p| ==> Before(p[i], p[j])
  }

  /** Dropping drafts keeps the remaining `order_index` values strictly increasing. */
  lemma {:induction false} FilterKeepsOrder(xs: seq<Draft>, keep: Draft -> bool)
    requires IncreasingOrder(xs)
    ensures IncreasingOrder(Filter(xs, keep))
    decreases |xs|
  {
    if xs != [] {
      var init, last := xs[..|xs| - 1], xs[|xs| - 1];
      assert IncreasingOrder(init) by {
        forall i, j | 0 <= i < j < |init| ensures Before(init[i], init[j]) {
          assert init[i] == xs[i] && init[j] == xs[j];
        }
      }
      FilterKeepsOrder(init, keep);
      var prev := Filter(init, keep);
      var tail: seq<Draft> := if keep(last) then [last] else [];
      var q := prev + tail;
      forall i, j | 0 <= i < j < |q| ensures Before(q[i], q[j]) {
        assert q[i] == prev[i];
        if j < |prev| {
          assert q[j] == prev[j];
        } else {
          assert q[j] == last;
          assert prev[i] in init;
          var k :| 0 <= k < |init| && init[k] == prev[i];
          assert xs[k] == init[k];
        }
      }
      assert Filter(xs, keep) == q;
    }
  }

  /** When every draft has a title, the final filter keeps them all. */
  lemma {:induction false} KeepAllTitled(xs: seq<Draft>)
    requires forall i :: 0 <= i < |xs| ==> Titled(xs[i])
    ensures KeepTitled(xs) == xs
    decreases |xs|
  {
    if xs != [] {
      KeepAllTitled(xs[..|xs| - 1]);
      assert xs[..|xs| - 1] + [xs[|xs| - 1]] == xs;
    }
  }

  /** The drafts before filtering are numbered 1, 2, 3, ... in order. */
  lemma NormalisedInOrder(items: seq<PlanItem>)
    ensures IndexedUpTo(Normalised(items), |items|)
    ensures IncreasingOrder(Normalised(items))
  {
    NormalisedAt(items);
  }

  /** The kept drafts have positions between 1 and the item count, strictly increasing. */
  lemma KeptInOrder(items: seq<PlanItem>)
    ensures IndexedUpTo(PlanOf(Some(items)), |items|)
    ensures IncreasingOrder(PlanOf(Some(items)))
  {
    var all := Normalised(items);
    NormalisedInOrder(items);
    FilterKeepsOrder(all, Titled);
    var p := PlanOf(Some(items));
    forall i | 0 <= i < |p| ensures p[i].orderIndex.Some? && 1 <= p[i].orderIndex.value <= |items| {
      assert p[i] in all;
    }
  }

  /** Before filtering, every draft is the draft of the item at its `order_index`. */
  lemma NormalisedFromItems(items: seq<PlanItem>)
    ensures FromItems(items, Normalised(items))
  {
    NormalisedAt(items);
    var all := Normalised(items);
    forall k | 0 <= k < |all| ensures FromItem(items, all[k]) {
      assert all[k] == NormaliseItem(items[k], k + 1);
    }
  }

  /** Every kept draft is the draft of the item at its `order_index`. */
  lemma KeptFromItems(items: seq<PlanItem>)
    ensures FromItems(items, PlanOf(Some(items)))
  {
    NormalisedFromItems(items);
    var all := Normalised(items);
    var p := PlanOf(Some(items));
    forall i | 0 <= i < |p| ensures FromItem(items, p[i]) {
      assert p[i] in all;
    }
  }

  /** Items whose title trims to "" are dropped; every other item's draft is kept. */
  lemma KeptExactlyTitled(items: seq<PlanItem>)
    ensures forall k :: 0 <= k < |items| ==>
      (NormaliseItem(items[k], k + 1) in PlanOf(Some(items)) <==> Strip(OrEmpty(items[k].title)) != [])
  {
    NormalisedAt(items);
    var all := Normalised(items);
    forall k | 0 <= k < |items|
      ensures NormaliseItem(items[k], k + 1) in all
    {
      assert all[k] == NormaliseItem(items[k], k + 1);
    }
  }

  /**
   * What `generate_plan` promises of every plan it returns: no longer than the
   * parsed list, titles non-empty and trimmed, no due dates, nothing done, and
   * `order_index` the item's 1-based position, strictly increasing.
   */
  lemma PlanShape(items: seq<PlanItem>)
    ensures var p := PlanOf(Some(items));
      && |p| <= |items|
      && (forall i :: 0 <= i < |p| ==>
            && p[i].title.Some? && p[i].title.value != [] && IsStripped(p[i].title.value)
            && p[i].dueDate.None? && p[i].done == Some(0)
            && p[i].orderIndex.Some? && 1 <= p[i].orderIndex.value <= |items|
            && p[i] == NormaliseItem(items[p[i].orderIndex.value - 1], p[i].orderIndex.value))
      && IncreasingOrder(p)
  {
    var p := PlanOf(Some(items));
    KeptInOrder(items);
    KeptFromItems(items);
    forall i | 0 <= i < |p|
      ensures p[i].title.Some? && p[i].title.value != [] && IsStripped(p[i].title.value)
      ensures p[i].dueDate.None? && p[i].done == Some(0)
    {
      assert p[i] in p;
      assert p[i].orderIndex.Some? && 1 <= p[i].orderIndex.value <= |items|;
      var k := p[i].orderIndex.value;
      NormaliseItemShape(items[k - 1], k);
    }
  }

  /** The parsed answer the source's own test feeds to `generate_plan`. */
  const TwoItemAnswer: seq<PlanItem> := [
    PlanItem(Some("Draft outline"), Some("Write section headings and bullet points"),
             Some("5 sections outlined"), Some(30), Some("clarity before writing")),
    PlanItem(Some("Collect references"), Some("Save 5 sources to Zotero"),
             Some("5 sources"), Some(25), Some("support arguments"))]

  /** What that test checks: both items kept, the first titled as given, undated, not done, numbered. */
  lemma TwoItemPlan()
    ensures var p := PlanOf(Some(TwoItemAnswer));
      && |p| == 2 && p[0].title == Some("Draft outline") && p[1].title == Some("Collect references")
      && p[0].dueDate.None? && p[0].done == Some(0) && p[0].orderIndex == Some(1) && p[1].orderIndex == Some(2)
  {
    TwoItemTitles();
    NormalisedAt(TwoItemAnswer);
    KeepAllTitled(Normalised(TwoItemAnswer));
  }

  /** Both titles of that answer are already trimmed. */
  lemma TwoItemTitles()
    ensures NormaliseItem(TwoItemAnswer[0], 1).title == Some("Draft outline")
    ensures NormaliseItem(TwoItemAnswer[1], 2).title == Some("Collect references")
  {
    StripKeeps("Draft outline");
    StripKeeps("Collect references");
  }

  /** A string that neither starts nor ends with whitespace is its own strip. */
  lemma StripKeeps(s: string)
    requires s != [] && !IsSpace(s[0]) && !IsSpace(s[|s| - 1])
    ensures Strip(s) == s
  {
    assert s[0..|s|] == s;
  }
}
