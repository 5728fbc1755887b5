/** The tag tokenizer of the scripts: Python's `re.findall(r'[<|](.*?)[>|]', tags)`.
    A match starts at a `<` or `|`, takes the shortest run of characters other than a
    newline (`.` does not match one) up to the next `>` or `|`, and the search resumes
    after that closing character; where no match starts, the search moves on by one.

    `FindAllTags` is that regex as written. Because the closing `|` of one tag is consumed,
    it cannot open the next one, so on the `|a|b|c|` form of the Tags attribute every
    second tag is lost, although the form is meant to be supported. `ExtractTags` is the
    intended tokenizer (the closing character is matched by a lookahead, as in
    `[<|](.*?)(?=[>|])`), with `PipeRoundTrip` proved about it. The scripts are modelled
    with `FindAllTags`, as they run; `AgreeWithoutPipes` shows that the two tokenizers
    give the same tags on every string without a `|`. */
module TagRegex {
  import opened Options

  predicate IsOpener(c: char) { c == '<' || c == '|' }
  predicate IsCloser(c: char) { c == '>' || c == '|' }

  /** What `(.*?)` can capture: no closing character and no newline. */
  predicate IsTagText(t: string)
  {
    forall i | 0 <= i < |t| :: !IsCloser(t[i]) && t[i] != '\n'
  }

  /** A tag as the dump writes one: tag text that also holds no `<`. */
  predicate IsPlainTag(t: string)
  {
    IsTagText(t) && forall i | 0 <= i < |t| :: t[i] != '<'
  }

  /** The length of the lazy `(.*?)` capture at the start of `s` (just after an opening
      character): the position of the first closing character, provided no newline comes
      before it; `None` when the match fails there. */
  function BodyLength(s: string): (r: Option<nat>)
    ensures r.Some? ==> r.value < |s| && IsCloser(s[r.value]) && IsTagText(s[..r.value])
    ensures r.None? ==> forall i | 0 <= i < |s| && IsCloser(s[i]) :: exists j :: 0 <= j < i && s[j] == '\n'
  {
    if s == [] then None
    else if IsCloser(s[0]) then Some(0)
    else if s[0] == '\n' then None
    else match BodyLength(s[1..])
      case None =>
        assert forall i | 1 <= i < |s| && IsCloser(s[i]) :: s[1..][i - 1] == s[i];
        None
      case Some(k) =>
        assert s[..k + 1] == [s[0]] + s[1..][..k];
        Some(k + 1)
  }

  /** `re.findall(r'[<|](.*?)[>|]', s)` as the source writes it. */
  function FindAllTags(s: string): (tags: seq<string>)
    ensures forall t | t in tags :: IsTagText(t)
    decreases |s|
  {
    if s == [] then []
    else if IsOpener(s[0]) && BodyLength(s[1..]).Some? then
      var k := BodyLength(s[1..]).value;
      assert s[1..k + 1] == s[1..][..k];
      [s[1..k + 1]] + FindAllTags(s[k + 2..])
    else FindAllTags(s[1..])
  }

  /** The intended tokenizer: as `FindAllTags`, except that the search resumes AT the
      closing character, so a `|` both closes one tag and opens the next. */
  function ExtractTags(s: string): (tags: seq<string>)
    ensures forall t | t in tags :: IsTagText(t)
    decreases |s|
  {
    if s == [] then []
    else if IsOpener(s[0]) && BodyLength(s[1..]).Some? then
      var k := BodyLength(s[1..]).value;
      assert s[1..k + 1] == s[1..][..k];
      [s[1..k + 1]] + ExtractTags(s[k + 1..])
    else ExtractTags(s[1..])
  }

  /** The `<a><b>` form of the Tags attribute. */
  function AngleJoin(tags: seq<string>): string
  {
    if tags == [] then "" else "<" + tags[0] + ">" + AngleJoin(tags[1..])
  }

  /** The `|a|b|` form of the Tags attribute. */
  function PipeJoin(tags: seq<string>): string
  {
    if tags == [] then "" else "|" + PipeBody(tags)
  }

  function PipeBody(tags: seq<string>): string
  {
    if tags == [] then "" else tags[0] + "|" + PipeBody(tags[1..])
  }

  /** The capture after an opening character runs over tag text to the closing character. */
  lemma {:induction false} BodyLengthOver(t: string, rest: string)
    requires IsTagText(t)
    requires |rest| > 0 && IsCloser(rest[0])
    ensures BodyLength(t + rest) == Some(|t|)
  {
    if t != [] {
      assert (t + rest)[1..] == t[1..] + rest;
      BodyLengthOver(t[1..], rest);
    }
  }

  /** One tag is captured from `<t>...` or `|t|...`. */
  lemma OneTag(open: char, t: string, close: char, rest: string)
    requires IsOpener(open) && IsCloser(close) && IsTagText(t)
    ensures ExtractTags([open] + t + [close] + rest) == [t] + ExtractTags([close] + rest)
    ensures FindAllTags([open] + t + [close] + rest) == [t] + FindAllTags(rest)
  {
    var s := [open] + t + [close] + rest;
    assert s[1..] == t + ([close] + rest);
    BodyLengthOver(t, [close] + rest);
    assert s[1..|t| + 1] == t;
    assert s[|t| + 1..] == [close] + rest;
    assert s[|t| + 2..] == rest;
  }

  /** Every `<t>` of the angle form yields exactly its tag, in order. */
  lemma {:induction false} AngleRoundTrip(tags: seq<string>)
    requires forall t | t in tags :: IsTagText(t)
    ensures ExtractTags(AngleJoin(tags)) == tags
  {
    if tags != [] {
      var rest := AngleJoin(tags[1..]);
      assert AngleJoin(tags) == ['<'] + tags[0] + ['>'] + rest;
      OneTag('<', tags[0], '>', rest);
      assert (['>'] + rest)[1..] == rest;
      AngleRoundTrip(tags[1..]);
    }
  }

  /** The regex as written also yields exactly the tags of the angle form, in order. */
  lemma {:induction false} AngleRoundTripAsWritten(tags: seq<string>)
    requires forall t | t in tags :: IsTagText(t)
    ensures FindAllTags(AngleJoin(tags)) == tags
  {
    if tags != [] {
      var rest := AngleJoin(tags[1..]);
      assert AngleJoin(tags) == ['<'] + tags[0] + ['>'] + rest;
      OneTag('<', tags[0], '>', rest);
      AngleRoundTripAsWritten(tags[1..]);
    }
  }

  lemma {:induction false} PipeBodyRoundTrip(tags: seq<string>)
    requires forall t | t in tags :: IsTagText(t)
    ensures ExtractTags("|" + PipeBody(tags)) == tags
  {
    if tags == [] {
      assert BodyLength("") == None;
      assert ("|" + "")[1..] == "";
    } else {
      var rest := PipeBody(tags[1..]);
      assert tags[0] in tags;
      assert "|" + PipeBody(tags) == ['|'] + tags[0] + ['|'] + rest;
      OneTag('|', tags[0], '|', rest);
      assert ['|'] + rest == "|" + PipeBody(tags[1..]);
      PipeBodyRoundTrip(tags[1..]);
    }
  }

  /** Every `|t|` of the pipe form yields exactly its tag, in order. */
  lemma PipeRoundTrip(tags: seq<string>)
    requires forall t | t in tags :: IsTagText(t)
    ensures ExtractTags(PipeJoin(tags)) == tags
  {
    if tags != [] {
      PipeBodyRoundTrip(tags);
    }
  }

  /** On a string with no `|` the regex as written and the intended tokenizer agree. */
  lemma {:induction false} AgreeWithoutPipes(s: string)
    requires forall i | 0 <= i < |s| :: s[i] != '|'
    ensures FindAllTags(s) == ExtractTags(s)
    decreases |s|
  {
    if s != [] {
      if IsOpener(s[0]) && BodyLength(s[1..]).Some? {
        var k := BodyLength(s[1..]).value;
        assert s[1..][k] == s[k + 1] == '>';
        assert s[k + 1..][1..] == s[k + 2..];
        AgreeWithoutPipes(s[k + 2..]);
      } else {
        AgreeWithoutPipes(s[1..]);
      }
    }
  }

  /** Text without any opening character starts no match. */
  lemma {:induction false} SkipPlain(t: string, rest: string)
    requires IsPlainTag(t)
    ensures FindAllTags(t + rest) == FindAllTags(rest)
  {
    if t != [] {
      var s := t + rest;
      assert s[0] == t[0] && !IsOpener(s[0]);
      assert FindAllTags(s) == FindAllTags(s[1..]);
      assert s[1..] == t[1..] + rest;
      SkipPlain(t[1..], rest);
    } else {
      assert t + rest == rest;
    }
  }

  /** The tags at even positions: what the regex as written finds in the pipe form. */
  function EveryOther(tags: seq<string>): seq<string>
  {
    if tags == [] then []
    else if |tags| == 1 then tags
    else [tags[0]] + EveryOther(tags[2..])
  }

  /** Two pipe-form tags: the first is found, the second is skipped. */
  lemma PipePairAsWritten(tags: seq<string>)
    requires |tags| >= 2 && IsPlainTag(tags[0]) && IsPlainTag(tags[1])
    ensures FindAllTags("|" + PipeBody(tags)) == [tags[0]] + FindAllTags("|" + PipeBody(tags[2..]))
  {
    var next := "|" + PipeBody(tags[2..]);
    var after := tags[1] + next;
    assert tags[1..][1..] == tags[2..];
    assert "|" + PipeBody(tags) == ['|'] + tags[0] + ['|'] + after;
    OneTag('|', tags[0], '|', after);
    SkipPlain(tags[1], next);
  }

  /** A lone `|` starts no match. */
  lemma LonePipe()
    ensures FindAllTags("|") == []
  {
    assert "|"[1..] == "";
    assert BodyLength("") == None;
  }

  lemma {:induction false} PipeBodyAsWritten(tags: seq<string>)
    requires forall i | 0 <= i < |tags| :: IsPlainTag(tags[i])
    ensures FindAllTags("|" + PipeBody(tags)) == EveryOther(tags)
    decreases |tags|
  {
    if tags == [] {
      assert "|" + PipeBody(tags) == "|";
      LonePipe();
    } else if |tags| == 1 {
      assert "|" + PipeBody(tags) == ['|'] + tags[0] + ['|'] + "" by { assert tags[1..] == []; }
      OneTag('|', tags[0], '|', "");
    } else {
      var tail := tags[2..];
      assert forall i | 0 <= i < |tail| :: IsPlainTag(tail[i]) by {
        forall i | 0 <= i < |tail| ensures IsPlainTag(tail[i]) { assert tail[i] == tags[i + 2]; }
      }
      PipeBodyAsWritten(tail);
      PipePairAsWritten(tags);
    }
  }

  /** The regex as written returns only every second tag of the pipe form. */
  lemma PipeFormAsWritten(tags: seq<string>)
    requires forall i | 0 <= i < |tags| :: IsPlainTag(tags[i])
    ensures FindAllTags(PipeJoin(tags)) == EveryOther(tags)
  {
    if tags != [] {
      PipeBodyAsWritten(tags);
    }
  }

  /** The input that shows it: `|a|b|` yields `["a"]` as written, `["a", "b"]` as intended. */
  lemma PipeFormLosesTags()
    ensures FindAllTags("|a|b|") == ["a"]
    ensures ExtractTags("|a|b|") == ["a", "b"]
  {
    var tags := ["a", "b"];
    assert PipeJoin(tags) == "|a|b|" by {
      assert tags[1..][1..] == [];
    }
    PipeFormAsWritten(tags);
    assert EveryOther(tags) == ["a"] by {
      assert tags[2..] == [];
    }
    PipeRoundTrip(tags);
  }

  /** `<a><b>` yields `["a", "b"]`, with either tokenizer. */
  lemma AngleExample()
    ensures FindAllTags("<a><b>") == ["a", "b"]
    ensures ExtractTags("<a><b>") == ["a", "b"]
  {
    var tags := ["a", "b"];
    assert AngleJoin(tags) == "<a><b>" by {
      assert tags[1..][1..] == [];
    }
    AngleRoundTrip(tags);
    AngleRoundTripAsWritten(tags);
  }
}
