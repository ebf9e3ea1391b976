/** `Debate.extract_answer`: locating the structured `{"answer": ...}`
    fragment in a free-text model reply. */
module Extraction {
  import opened Wrappers
  import opened Text

  /** The three marker spellings the extractor looks for, in the order it tests them. */
  const SingleQuoteMarker: string := "{'answer':"
  const DoubleQuoteMarker: string := "{\"answer\":"
  const NewlineMarker: string := "{\"\nanswer\":"

  /** The closing text each branch searches for after its start index. */
  const Brace: string := "}"
  const NewlineBrace: string := "\n}"

  /** Which `str.index` call raised ValueError. */
  datatype ExtractError =
    | UnclosedSingleQuote     // no `}` after the first `{'answer':`
    | UnclosedDoubleQuote     // no `}` after the first `{"answer":`
    | NewlineMarkerAlone      // the newline variant is present but `{"answer":` is not
    | NoNewlineBrace          // no "\n}" after the first `{"answer":`

  /** `raw[start:][:raw[start:].index(close) + 1]`: the text from `start` up to and
      including the first character of the first `close` after it; `None` where
      `index` raises. */
  function CutAfter(raw: string, start: nat, close: string): (r: Option<string>)
    requires start <= |raw| && close != []
    ensures r.Some? ==> r.value != [] && r.value[|r.value| - 1] == close[0]
  {
    var e := IndexOf(raw[start..], close);
    if e.None? then None else Some(raw[start..][..e.value + 1])
  }

  /** One `if marker in rawanswer:` block of the two brace-terminated branches. */
  function BraceBranch(raw: string, marker: string, current: string, error: ExtractError): Result<string, ExtractError>
  {
    var i := IndexOf(raw, marker);
    if i.None? then Success(current)
    else
      var cut := CutAfter(raw, i.value, Brace);
      if cut.None? then Failure(error) else Success(cut.value)
  }

  /** The third block: it tests for the newline variant but then searches for the
      plain double-quote marker, and cuts at "\n}". */
  function NewlineBranch(raw: string, current: string): Result<string, ExtractError>
  {
    if !Contains(raw, NewlineMarker) then Success(current)
    else
      var i := IndexOf(raw, DoubleQuoteMarker);
      if i.None? then Failure(NewlineMarkerAlone)
      else
        var cut := CutAfter(raw, i.value, NewlineBrace);
        if cut.None? then Failure(NoNewlineBrace) else Success(cut.value)
  }

  /** `Debate.extract_answer(rawanswer)`: the three blocks run in order, each
      overwriting the previous result; a raised ValueError is a `Failure`. */
  function ExtractAnswer(raw: string): (r: Result<string, ExtractError>)
    ensures r.Success? && r.value != "" ==> r.value[|r.value| - 1] in {'}', '\n'}
  {
    var single := BraceBranch(raw, SingleQuoteMarker, "", UnclosedSingleQuote);
    if single.Failure? then single
    else
      var double := BraceBranch(raw, DoubleQuoteMarker, single.value, UnclosedDoubleQuote);
      if double.Failure? then double
      else NewlineBranch(raw, double.value)
  }

  /** `marker` occurs in `raw`, and every `close` in `raw` starts before every
      occurrence of `marker`: searching for `close` after the first marker fails. */
  ghost predicate Unclosed(raw: string, marker: string, close: string)
  {
    (exists k: nat :: OccursAt(raw, marker, k)) &&
    forall k: nat, m: nat :: OccursAt(raw, marker, k) && OccursAt(raw, close, m) ==> m < k
  }

  /** The search for `close` after the first marker fails exactly when the marker is `Unclosed`. */
  lemma CutFailsIff(raw: string, marker: string, close: string)
    requires close != []
    requires IndexOf(raw, marker).Some?
    ensures CutAfter(raw, IndexOf(raw, marker).value, close).None? <==> Unclosed(raw, marker, close)
  {
    var i := IndexOf(raw, marker).value;
    if IndexOf(raw[i..], close).None? {
      forall k: nat, m: nat | OccursAt(raw, marker, k) && OccursAt(raw, close, m)
        ensures m < k
      {
        if m >= i {
          OccursInSuffix(raw, close, i, m - i);
        }
      }
    } else {
      var e := IndexOf(raw[i..], close).value;
      OccursInSuffix(raw, close, i, e);
      assert OccursAt(raw, marker, i) && OccursAt(raw, close, i + e);
    }
  }

  /** A reply with none of the three markers yields the empty string and never raises. */
  lemma NoMarkerNoAnswer(raw: string)
    requires forall k: nat :: !OccursAt(raw, SingleQuoteMarker, k)
    requires forall k: nat :: !OccursAt(raw, DoubleQuoteMarker, k)
    requires forall k: nat :: !OccursAt(raw, NewlineMarker, k)
    ensures ExtractAnswer(raw) == Success("")
  {
  }

  /** The extractor raises exactly in the four situations where a `str.index`
      call finds nothing, and reports the first of them in program order. */
  lemma ExtractFailsExactly(raw: string)
    ensures ExtractAnswer(raw) == Failure(UnclosedSingleQuote) <==>
              Unclosed(raw, SingleQuoteMarker, Brace)
    ensures ExtractAnswer(raw) == Failure(UnclosedDoubleQuote) <==>
              !Unclosed(raw, SingleQuoteMarker, Brace) && Unclosed(raw, DoubleQuoteMarker, Brace)
    ensures ExtractAnswer(raw) == Failure(NewlineMarkerAlone) <==>
              !Unclosed(raw, SingleQuoteMarker, Brace) && !Unclosed(raw, DoubleQuoteMarker, Brace) &&
              Contains(raw, NewlineMarker) && !Contains(raw, DoubleQuoteMarker)
    ensures ExtractAnswer(raw) == Failure(NoNewlineBrace) <==>
              !Unclosed(raw, SingleQuoteMarker, Brace) && !Unclosed(raw, DoubleQuoteMarker, Brace) &&
              Contains(raw, NewlineMarker) && Unclosed(raw, DoubleQuoteMarker, NewlineBrace)
  {
    BranchFailsIff(raw, SingleQuoteMarker, "", UnclosedSingleQuote);
    var single := BraceBranch(raw, SingleQuoteMarker, "", UnclosedSingleQuote);
    if single.Success? {
      BranchFailsIff(raw, DoubleQuoteMarker, single.value, UnclosedDoubleQuote);
    }
    if IndexOf(raw, DoubleQuoteMarker).Some? {
      CutFailsIff(raw, DoubleQuoteMarker, NewlineBrace);
    } else {
      assert !Unclosed(raw, DoubleQuoteMarker, NewlineBrace);
    }
  }

  /** A brace-terminated block raises exactly when its marker is `Unclosed`. */
  lemma BranchFailsIff(raw: string, marker: string, current: string, error: ExtractError)
    ensures BraceBranch(raw, marker, current, error).Failure? <==> Unclosed(raw, marker, Brace)
    ensures BraceBranch(raw, marker, current, error).Failure? ==> BraceBranch(raw, marker, current, error).error == error
  {
    if IndexOf(raw, marker).Some? {
      CutFailsIff(raw, marker, Brace);
    }
  }

  /** When the double-quote marker first occurs at `i`, the first `}` at or after it
      is at `j`, the single-quote block does not raise and the newline variant is
      absent, the result is exactly `raw[i..j]` inclusive: the double-quote match
      overrides any single-quote match, wherever it lies. */
  lemma DoubleQuoteMarkerWins(raw: string, i: nat, j: nat)
    requires OccursAt(raw, DoubleQuoteMarker, i)
    requires forall k: nat :: k < i ==> !OccursAt(raw, DoubleQuoteMarker, k)
    requires i <= j < |raw| && raw[j] == '}'
    requires forall k :: i <= k < j ==> raw[k] != '}'
    requires !Unclosed(raw, SingleQuoteMarker, Brace)
    requires !Contains(raw, NewlineMarker)
    ensures ExtractAnswer(raw) == Success(raw[i..j + 1])
  {
    IndexOfIs(raw, DoubleQuoteMarker, i);
    BraceAt(raw, i, j);
    BranchFailsIff(raw, SingleQuoteMarker, "", UnclosedSingleQuote);
  }

  /** The first `}` at or after `i` is at `j`: the cut from `i` ends at `j`. */
  lemma BraceAt(raw: string, i: nat, j: nat)
    requires i <= j < |raw| && raw[j] == '}'
    requires forall k :: i <= k < j ==> raw[k] != '}'
    ensures CutAfter(raw, i, Brace) == Some(raw[i..j + 1])
  {
    var t := raw[i..];
    assert OccursAt(t, Brace, j - i) by {
      assert t[j - i..j - i + 1] == [raw[j]];
    }
    forall k: nat | k < j - i
      ensures !OccursAt(t, Brace, k)
    {
      assert t[k] == raw[i + k];
    }
    IndexOfIs(t, Brace, j - i);
    assert t[..j - i + 1] == raw[i..j + 1];
  }

  /** Without the newline variant, a non-empty result is a fragment of the reply
      that starts with one of the two markers and whose only `}` is its last
      character. */
  lemma ExtractedFragmentShape(raw: string)
    requires ExtractAnswer(raw).Success? && ExtractAnswer(raw).value != ""
    requires !Contains(raw, NewlineMarker)
    ensures var r := ExtractAnswer(raw).value;
      && (StartsWith(r, SingleQuoteMarker) || StartsWith(r, DoubleQuoteMarker))
      && r[|r| - 1] == '}'
      && (forall k :: 0 <= k < |r| - 1 ==> r[k] != '}')
      && Contains(raw, r)
  {
    var single := BraceBranch(raw, SingleQuoteMarker, "", UnclosedSingleQuote);
    var double := BraceBranch(raw, DoubleQuoteMarker, single.value, UnclosedDoubleQuote);
    assert ExtractAnswer(raw) == double;
    if IndexOf(raw, DoubleQuoteMarker).Some? {
      BranchFragment(raw, DoubleQuoteMarker);
    } else {
      BranchFragment(raw, SingleQuoteMarker);
    }
  }

  /** The fragment one brace-terminated block cuts out. */
  lemma BranchFragment(raw: string, marker: string)
    requires IndexOf(raw, marker).Some?
    requires CutAfter(raw, IndexOf(raw, marker).value, Brace).Some?
    requires marker != [] && marker[0] == '{' && forall k :: 0 <= k < |marker| ==> marker[k] != '}'
    ensures var r := CutAfter(raw, IndexOf(raw, marker).value, Brace).value;
      && StartsWith(r, marker)
      && r[|r| - 1] == '}'
      && (forall k :: 0 <= k < |r| - 1 ==> r[k] != '}')
      && Contains(raw, r)
  {
    var i := IndexOf(raw, marker).value;
    var t := raw[i..];
    var e := IndexOf(t, Brace).value;
    var r := t[..e + 1];
    assert t[e..e + 1] == Brace;
    assert t[..|marker|] == marker by {
      assert raw[i..i + |marker|] == marker;
    }
    forall k | 0 <= k < |marker|
      ensures t[k] != '}'
    {
      assert t[k] == t[..|marker|][k];
    }
    forall k | 0 <= k < e
      ensures t[k] != '}'
    {
      assert !OccursAt(t, Brace, k);
      assert t[k..k + 1] == [t[k]];
    }
    assert t[e] == '}' by {
      assert t[e] == t[e..e + 1][0];
    }
    assert e >= |marker|;
    assert r[..|marker|] == t[..|marker|];
    assert r[..|marker|] == marker;
    assert OccursAt(raw, r, i) by {
      assert raw[i..i + |r|] == r;
    }
  }

  /** No character of the double-quote marker is a newline or a closing brace. */
  lemma DoubleQuoteMarkerChars()
    ensures forall k :: 0 <= k < |DoubleQuoteMarker| ==>
      DoubleQuoteMarker[k] != '\n' && DoubleQuoteMarker[k] != '}'
  {
    assert DoubleQuoteMarker == ['{', '"', 'a', 'n', 's', 'w', 'e', 'r', '"', ':'];
  }

  /** When the newline variant is present, the cut is taken at the "\n" of "\n}":
      the result ends with the newline and the `}` that follows it in the reply is
      left out. */
  lemma NewlineVariantDropsBrace(raw: string)
    requires Contains(raw, NewlineMarker)
    requires ExtractAnswer(raw).Success?
    ensures var r := ExtractAnswer(raw).value;
      && StartsWith(r, DoubleQuoteMarker)
      && r[|r| - 1] == '\n'
      && Contains(raw, r + Brace)
  {
    var single := BraceBranch(raw, SingleQuoteMarker, "", UnclosedSingleQuote);
    var double := BraceBranch(raw, DoubleQuoteMarker, single.value, UnclosedDoubleQuote);
    assert ExtractAnswer(raw) == NewlineBranch(raw, double.value);
    var i := IndexOf(raw, DoubleQuoteMarker).value;
    var t := raw[i..];
    var e := IndexOf(t, NewlineBrace).value;
    var r := t[..e + 1];
    assert ExtractAnswer(raw).value == r;
    assert t[..|DoubleQuoteMarker|] == DoubleQuoteMarker;
    assert t[e..e + 2] == NewlineBrace;
    assert t[e] == t[e..e + 2][0] == '\n';
    DoubleQuoteMarkerChars();
    forall k | 0 <= k < |DoubleQuoteMarker|
      ensures t[k] != '\n'
    {
      assert t[k] == t[..|DoubleQuoteMarker|][k];
    }
    assert r[..|DoubleQuoteMarker|] == DoubleQuoteMarker;
    assert OccursAt(raw, r + Brace, i) by {
      assert t[..e + 2] == r + Brace;
      assert raw[i..i + e + 2] == t[..e + 2];
    }
  }

  /** Whichever block produced it, a non-empty extracted answer is a fragment of
      the reply. */
  lemma ExtractedIsFragment(raw: string)
    requires ExtractAnswer(raw).Success? && ExtractAnswer(raw).value != ""
    ensures Contains(raw, ExtractAnswer(raw).value)
  {
    var r := ExtractAnswer(raw).value;
    if Contains(raw, NewlineMarker) {
      NewlineVariantDropsBrace(raw);
      var k := IndexOf(raw, r + Brace).value;
      assert OccursAt(raw, r, k) by {
        assert raw[k..k + |r|] == raw[k..k + |r| + 1][..|r|];
        assert (r + Brace)[..|r|] == r;
      }
    } else {
      ExtractedFragmentShape(raw);
    }
  }
}
