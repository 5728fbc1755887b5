/** The posts dump as the scripts see it: the `end` events of `ET.iterparse`, one element
    per event, each with its tag name and attribute map (`elem.tag`, `elem.get(name)`),
    and what the scans derive from them: which elements are rows and questions, the tags
    of a question, and where a scan with a post limit stops. */
module Posts {
  import opened Options
  import opened Ints
  import opened Seqs
  import opened TagRegex
  import opened Counters

  datatype Element = Element(tag: string, attrs: map<string, string>)

  /** `elem.get(name)`. */
  function Get(e: Element, name: string): Option<string>
  {
    if name in e.attrs then Some(e.attrs[name]) else None
  }

  /** Python truthiness of `elem.get(name)`: present and not empty. */
  predicate Truthy(v: Option<string>)
  {
    v.Some? && v.value != ""
  }

  /** `elem.tag == 'row'`. */
  predicate IsRow(e: Element)
  {
    e.tag == "row"
  }

  /** A row with `PostTypeId == '1'`. */
  predicate IsQuestion(e: Element)
  {
    IsRow(e) && Get(e, "PostTypeId") == Some("1")
  }

  /** A question whose Tags attribute is non-empty: the rows whose tags are read. */
  predicate IsTaggedQuestion(e: Element)
  {
    IsQuestion(e) && Truthy(Get(e, "Tags"))
  }

  /** The tags the scans extract from an element with `re.findall` as written (none unless
      it is a tagged question). */
  function TagsOf(e: Element): (tags: seq<string>)
    ensures forall t | t in tags :: IsTagText(t)
  {
    if IsTaggedQuestion(e) then FindAllTags(Get(e, "Tags").value) else []
  }

  /** A question whose Tags attribute is in the `<a><b>` form yields exactly those tags. */
  lemma TagsOfAngleForm(e: Element, tags: seq<string>)
    requires IsQuestion(e) && Get(e, "Tags") == Some(AngleJoin(tags))
    requires forall t | t in tags :: IsTagText(t)
    ensures TagsOf(e) == tags
  {
    AngleRoundTripAsWritten(tags);
  }

  /** A question whose Tags attribute is in the `|a|b|` form yields only every second tag. */
  lemma TagsOfPipeForm(e: Element, tags: seq<string>)
    requires IsQuestion(e) && Get(e, "Tags") == Some(PipeJoin(tags))
    requires forall i | 0 <= i < |tags| :: IsPlainTag(tags[i])
    ensures TagsOf(e) == EveryOther(tags)
  {
    if tags == [] {
      assert !IsTaggedQuestion(e);
    } else {
      assert IsTaggedQuestion(e);
      PipeFormAsWritten(tags);
    }
  }

  /** Every tag occurrence extracted from the elements, in document order. */
  function AllTags(es: seq<Element>): seq<string>
  {
    if es == [] then [] else AllTags(es[..|es| - 1]) + TagsOf(es[|es| - 1])
  }

  lemma AllTagsSnoc(es: seq<Element>, e: Element)
    ensures AllTags(es + [e]) == AllTags(es) + TagsOf(e)
  {
    assert (es + [e])[..|es|] == es;
  }

  /** What one more scanned element does to the tag counter: a question with Tags adds its
      extracted tags, any other element leaves the counter unchanged. */
  lemma TagTallyStep(es: seq<Element>, i: nat)
    requires i < |es|
    ensures Tally(AllTags(es[..i + 1])) ==
            if IsTaggedQuestion(es[i]) then Update(Tally(AllTags(es[..i])), FindAllTags(Get(es[i], "Tags").value))
            else Tally(AllTags(es[..i]))
  {
    assert es[..i + 1] == es[..i] + [es[i]];
    AllTagsSnoc(es[..i], es[i]);
    if IsTaggedQuestion(es[i]) {
      UpdateConcat([], AllTags(es[..i]), TagsOf(es[i]));
    } else {
      assert AllTags(es[..i + 1]) == AllTags(es[..i]) + [] == AllTags(es[..i]);
    }
  }

  /** The number of `row` elements. */
  function RowCount(es: seq<Element>): nat
  {
    |Filter(IsRow, es)|
  }

  /** Where a scan that checks `posts_processed >= post_limit` after each row stops, when
      it resumes at element `i` having processed `posts` rows: just after the first row
      that brings the row count to the limit, or at the end. */
  function ScanFrom(es: seq<Element>, limit: int, i: nat, posts: int): (n: nat)
    requires i <= |es|
    ensures i <= n <= |es|
    decreases |es| - i
  {
    if i == |es| then |es|
    else
      var posts' := if IsRow(es[i]) then posts + 1 else posts;
      if IsRow(es[i]) && posts' >= limit then i + 1
      else ScanFrom(es, limit, i + 1, posts')
  }

  /** The number of leading elements a scan with `post_limit == limit` consumes. */
  function ScanLength(es: seq<Element>, limit: int): (n: nat)
    ensures n <= |es|
  {
    ScanFrom(es, limit, 0, 0)
  }

  lemma RowCountStep(es: seq<Element>, i: nat)
    requires i < |es|
    ensures RowCount(es[..i + 1]) == RowCount(es[..i]) + if IsRow(es[i]) then 1 else 0
  {
    assert es[..i + 1] == es[..i] + [es[i]];
    FilterSnoc(IsRow, es[..i], es[i]);
  }

  /** Resumed at element i with the rows before it counted and under the limit, the scan
      ends with min(rows, max(limit, 1)) rows processed. */
  lemma {:induction false} ScanFromSpec(es: seq<Element>, limit: int, i: nat, posts: int)
    requires i <= |es|
    requires posts == RowCount(es[..i]) < Max(limit, 1)
    ensures RowCount(es[..ScanFrom(es, limit, i, posts)]) == Min(RowCount(es), Max(limit, 1))
    decreases |es| - i
  {
    if i == |es| {
      assert es[..i] == es;
    } else {
      RowCountStep(es, i);
      if IsRow(es[i]) && posts + 1 >= limit {
        ScanStopsAt(es, limit, i);
      } else {
        ScanFromSpec(es, limit, i + 1, if IsRow(es[i]) then posts + 1 else posts);
      }
    }
  }

  /** A scan that stops before the end stops right after a row. */
  lemma {:induction false} ScanStopsAfterRow(es: seq<Element>, limit: int, i: nat, posts: int)
    requires i <= |es|
    ensures ScanFrom(es, limit, i, posts) < |es| ==>
              ScanFrom(es, limit, i, posts) > 0 && IsRow(es[ScanFrom(es, limit, i, posts) - 1])
    decreases |es| - i
  {
    if i < |es| && !(IsRow(es[i]) && posts + 1 >= limit) {
      ScanStopsAfterRow(es, limit, i + 1, if IsRow(es[i]) then posts + 1 else posts);
    }
  }

  /** The row at position i reaches the limit: the scan stops right after it. */
  lemma ScanStopsAt(es: seq<Element>, limit: int, i: nat)
    requires i < |es| && IsRow(es[i])
    requires RowCount(es[..i]) < Max(limit, 1) <= RowCount(es[..i]) + 1
    ensures RowCount(es[..i + 1]) == Min(RowCount(es), Max(limit, 1))
  {
    RowCountStep(es, i);
    FilterPrefix(IsRow, es, i + 1, |es|);
    assert es[..|es|] == es;
  }

  /** A scan with a post limit processes min(number of rows, max(limit, 1)) rows: the row
      that reaches the limit is still processed, and the scan stops right after it. */
  lemma ScanLengthSpec(es: seq<Element>, limit: int)
    ensures ScanLength(es, limit) <= |es|
    ensures RowCount(es[..ScanLength(es, limit)]) == Min(RowCount(es), Max(limit, 1))
    ensures ScanLength(es, limit) < |es| ==>
              ScanLength(es, limit) > 0 && IsRow(es[ScanLength(es, limit) - 1])
  {
    assert es[..0] == [];
    ScanFromSpec(es, limit, 0, 0);
    ScanStopsAfterRow(es, limit, 0, 0);
  }

  /** With a positive `post_limit` (the scripts' defaults), the scan processes
      min(number of rows, post_limit) rows. */
  lemma PositiveLimitSpec(es: seq<Element>, limit: int)
    requires limit >= 1
    ensures RowCount(es[..ScanLength(es, limit)]) == Min(RowCount(es), limit)
  {
    ScanLengthSpec(es, limit);
  }
}
