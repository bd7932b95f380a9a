/**
  Reading the identifier list (`readSsns`, main.go): the file's text is
  CRLF-normalised, split on '\n', and the empty pieces are dropped.
 */
module Identifiers {
  import opened Base
  import opened Strings

  /** The pieces that are not empty, in their original order. */
  function NonEmpty(pieces: seq<string>): (kept: seq<string>)
    ensures |kept| <= |pieces|
    ensures forall i :: 0 <= i < |kept| ==> |kept[i]| > 0
  {
    if |pieces| == 0 then []
    else (if |pieces[0]| > 0 then [pieces[0]] else []) + NonEmpty(pieces[1..])
  }

  /** Every kept piece is one of the pieces. */
  lemma {:induction false} NonEmptyFrom(pieces: seq<string>)
    ensures forall i :: 0 <= i < |NonEmpty(pieces)| ==> NonEmpty(pieces)[i] in pieces
  {
    if |pieces| > 0 {
      NonEmptyFrom(pieces[1..]);
      var kept := NonEmpty(pieces);
      var head := if |pieces[0]| > 0 then [pieces[0]] else [];
      forall i | 0 <= i < |kept| ensures kept[i] in pieces {
        if i >= |head| {
          assert kept[i] == NonEmpty(pieces[1..])[i - |head|];
          assert NonEmpty(pieces[1..])[i - |head|] in pieces[1..];
        }
      }
    }
  }

  /** Every non-empty piece is kept. */
  lemma {:induction false} NonEmptyKeeps(pieces: seq<string>, p: string)
    requires p in pieces && |p| > 0
    ensures p in NonEmpty(pieces)
  {
    if pieces[0] != p {
      NonEmptyKeeps(pieces[1..], p);
    }
  }

  /** Each non-empty piece is kept as often as it occurs: nothing is
      duplicated or lost; the empty piece is never kept. */
  lemma {:induction false} NonEmptyCounts(pieces: seq<string>, p: string)
    ensures multiset(NonEmpty(pieces))[p] == if |p| > 0 then multiset(pieces)[p] else 0
  {
    if |pieces| > 0 {
      NonEmptyCounts(pieces[1..], p);
      assert pieces == [pieces[0]] + pieces[1..];
    }
  }

  /** Nothing is kept exactly when every piece is empty. */
  lemma {:induction false} NonEmptyNone(pieces: seq<string>)
    ensures NonEmpty(pieces) == [] <==> AllEmpty(pieces)
  {
    if |pieces| > 0 {
      NonEmptyNone(pieces[1..]);
      assert pieces == [pieces[0]] + pieces[1..];
      AllEmptyCons(pieces[0], pieces[1..]);
    }
  }

  lemma {:induction false} NonEmptyAppend(a: seq<string>, b: seq<string>)
    ensures NonEmpty(a + b) == NonEmpty(a) + NonEmpty(b)
  {
    if |a| > 0 {
      assert (a + b)[1..] == a[1..] + b;
      NonEmptyAppend(a[1..], b);
    } else {
      assert a + b == b;
    }
  }

  /** The identifier list a file's text holds. */
  function Parse(text: string): (ssns: seq<string>)
    ensures forall i :: 0 <= i < |ssns| ==> |ssns[i]| > 0 && '\n' !in ssns[i]
  {
    NonEmptyFrom(Split(ReplaceCrLf(text), '\n'));
    NonEmpty(Split(ReplaceCrLf(text), '\n'))
  }

  /** The wording `readSsns` wraps a read error in. */
  const ReadErrorPrefix: string := "Failed to read personnumer: "

  /** `readSsns`: a read failure becomes an error carrying its cause;
      otherwise the result is the file's lines, CRLF terminators removed
      and blank lines dropped, in file order. */
  function Read(file: Result<string, string>): (r: Result<seq<string>, string>)
    ensures file.Failure? ==> r == Failure(ReadErrorPrefix + file.error)
    ensures file.Success? ==> && r.Success?
                              && r.value == NonEmpty(TrimLineEnds(Split(file.value, '\n')))
                              && (r.value == [] <==> LineBreaksOnly(file.value))
                              && forall i :: 0 <= i < |r.value| ==> |r.value[i]| > 0 && '\n' !in r.value[i]
  {
    match file
    case Success(text) =>
      ParseByLines(text);
      ParseEmpty(text);
      Success(Parse(text))
    case Failure(e) => Failure(ReadErrorPrefix + e)
  }

  /** The filtering loop of `readSsns`: appends each non-empty piece. */
  method KeepNonEmpty(pieces: seq<string>) returns (ssns: seq<string>)
    ensures ssns == NonEmpty(pieces)
  {
    ssns := [];
    for k := 0 to |pieces|
      invariant ssns == NonEmpty(pieces[..k])
    {
      var x := pieces[k];
      assert pieces[..k + 1] == pieces[..k] + [x];
      NonEmptyAppend(pieces[..k], [x]);
      assert NonEmpty([x]) == if |x| > 0 then [x] else [] by {
        assert [x][1..] == [];
      }
      if |pieces[k]| > 0 {
        ssns := ssns + [pieces[k]];
      }
    }
    assert pieces[..|pieces|] == pieces;
  }

  /** Reference description of the list: the raw lines of the file, each
      stripped of the '\r' of a CRLF terminator, with blank lines dropped,
      in file order. */
  lemma {:induction false} ParseByLines(text: string)
    ensures Parse(text) == NonEmpty(TrimLineEnds(Split(text, '\n')))
  {
    LinesOfReplaceCrLf(text);
  }

  /** The list is empty exactly when the text is nothing but "\n" and
      "\r\n" line breaks (the empty text included). */
  lemma ParseEmpty(text: string)
    ensures Parse(text) == [] <==> LineBreaksOnly(text)
  {
    var pieces := Split(ReplaceCrLf(text), '\n');
    assert Parse(text) == NonEmpty(pieces);
    NonEmptyNone(pieces);
    SplitAllEmpty(ReplaceCrLf(text), '\n');
    ReplaceCrLfAllLf(text);
    assert AllChar(ReplaceCrLf(text), '\n') <==> LineBreaksOnly(text);
  }

  /** A text with no line break at all is a single identifier, unless empty;
      a lone '\r' inside it is kept. */
  lemma ParseSingleLine(text: string)
    requires '\n' !in text && |text| > 0
    ensures Parse(text) == [text]
  {
    ReplaceCrLfNoLf(text);
    SplitPrefix(text, "", '\n');
    assert text + "" == text;
    assert Split("", '\n') == [""];
    assert Split(text, '\n') == [text];
    assert NonEmpty([text]) == [text] + NonEmpty([]) by {
      assert [text][1..] == [];
    }
    assert NonEmpty([]) == [];
    assert Parse(text) == NonEmpty([text]);
  }
}
