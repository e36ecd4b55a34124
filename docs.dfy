/** Doc comments: `print_docs` and the reading that undoes it. */
module Docs {
  import opened Text

  /** Each line with the ` * ` that starts a line inside a doc comment. */
  function Starred(ls: seq<string>): (r: seq<string>)
    ensures |r| == |ls|
  {
    if ls == [] then [] else [" * " + ls[0]] + Starred(ls[1..])
  }

  /**
    The doc comment for `docs`: nothing for empty docs, otherwise the opening marker, then
    every line of the docs after ` * `, each on its own line, then the closing
    marker.
  */
  function PrintDocs(docs: string): (r: string)
    ensures r == "" <==> docs == ""
    ensures docs != "" ==> |r| >= 6 && r[..4] == "/**\n" && r[|r| - 2..] == "*/"
  {
    if docs == "" then ""
    else "/**\n" + Concat(Terminated(Starred(Lines(docs)))) + "*/"
  }

  /** Each line without a leading ` * `. */
  function Unstarred(ls: seq<string>): (r: seq<string>)
    ensures |r| == |ls|
  {
    if ls == [] then []
    else [if |ls[0]| >= 3 && ls[0][..3] == " * " then ls[0][3..] else ls[0]] + Unstarred(ls[1..])
  }

  /**
    What a reader takes from a doc comment: the lines between the markers,
    without their ` * `, each ended by a line feed.
  */
  function ReadDocs(comment: string): string {
    if |comment| < 6 || comment[..4] != "/**\n" || comment[|comment| - 2..] != "*/" then ""
    else Concat(Terminated(Unstarred(Lines(comment[4..|comment| - 2]))))
  }

  lemma {:induction false} UnstarStarred(ls: seq<string>)
    ensures Unstarred(Starred(ls)) == ls
    decreases |ls|
  {
    if ls != [] {
      assert Starred(ls)[1..] == Starred(ls[1..]);
      assert (" * " + ls[0])[..3] == " * " && (" * " + ls[0])[3..] == ls[0];
      UnstarStarred(ls[1..]);
    }
  }

  lemma {:induction false} StarredLinesAreLines(ls: seq<string>)
    requires forall k :: 0 <= k < |ls| ==> '\n' !in ls[k] && '\r' !in ls[k]
    ensures forall k :: 0 <= k < |ls| ==> '\n' !in Starred(ls)[k] && StripCr(Starred(ls)[k]) == Starred(ls)[k]
    decreases |ls|
  {
    if ls != [] {
      StarredLinesAreLines(ls[1..]);
      var x := " * " + ls[0];
      assert x[|x| - 1] != '\r' by {
        if |ls[0]| > 0 { assert x[|x| - 1] == ls[0][|ls[0]| - 1]; }
      }
      assert forall k :: 1 <= k < |ls| ==> Starred(ls)[k] == Starred(ls[1..])[k - 1];
    }
  }

  lemma NoCharInSlices(s: string, c: char, i: nat)
    requires c !in s && i <= |s|
    ensures c !in s[..i] && c !in s[i..]
  {
    assert forall j :: 0 <= j < i ==> s[..i][j] == s[j];
    assert forall j :: i <= j < |s| ==> s[i..][j - i] == s[j];
  }

  lemma {:induction false} LinesHaveNoCr(s: string)
    requires '\r' !in s
    ensures forall k :: 0 <= k < |Lines(s)| ==> '\r' !in Lines(s)[k]
    decreases |s|
  {
    if s != [] && '\n' in s {
      var i := LinesStep(s);
      var head, rest := s[..i], s[i + 1..];
      NoCharInSlices(s, '\r', i);
      NoCharInSlices(s, '\r', i + 1);
      assert StripCr(head) == head;
      var tail := Lines(rest);
      LinesHaveNoCr(rest);
      assert Lines(s) == [head] + tail;
      forall k | 0 <= k < |Lines(s)| ensures '\r' !in Lines(s)[k] {
        if k > 0 { assert Lines(s)[k] == tail[k - 1]; }
      }
    }
  }

  /**
    Reading the comment back gives the docs (ended by a line feed): the
    comment carries every line, in order, with nothing added or lost.
  */
  lemma PrintDocsRoundTrip(docs: string)
    requires '\r' !in docs
    ensures ReadDocs(PrintDocs(docs)) == WithFinalNewline(docs)
  {
    if docs != "" {
      var ls := Lines(docs);
      var body := Concat(Terminated(Starred(ls)));
      var c := PrintDocs(docs);
      assert c == "/**\n" + body + "*/";
      assert c[4..|c| - 2] == body;
      LinesHaveNoCr(docs);
      StarredLinesAreLines(ls);
      LinesOfTerminated(Starred(ls));
      UnstarStarred(ls);
      LinesRoundTrip(docs);
    }
  }
}
