/** One tournament results page: its name (`TryFrom<Document>`) and the bounded, order-keeping
    parse of its first match listings (`top_n_matches`). */
module Tournaments {
  import opened Wrappers
  import opened Seqs
  import opened Html
  import opened Matches

  datatype TournamentParseError = NameParseError | MatchesParseError

  /** The description printed for each kind of failure. */
  function Message(e: TournamentParseError): (m: string)
    ensures IsPrefix("Error parsing tournament ", m)
    ensures e == MatchesParseError <==> IsPrefix("Error parsing tournament match", m)
  {
    assert forall s :: IsPrefix("Error parsing tournament match", s) ==> s[25] == 'm';
    match e
    case NameParseError => "Error parsing tournament name"
    case MatchesParseError => "Error parsing tournament match nodes"
  }

  /** The two kinds of failure are described differently. */
  lemma MessagesDistinct()
    ensures Message(NameParseError) != Message(MatchesParseError)
  {
  }

  /** A page whose name has been read; the document is kept for extracting matches later. */
  datatype Tournament = Tournament(name: string, doc: Node)

  const NameClass := "tc-tournament-header__name"
  const MatchClassMarker := "tc-match__content"

  /** A `span` whose class attribute is exactly the tournament-name class. */
  predicate IsNameSpan(l: Located)
  {
    IsElement(l.node, "span") && Attr(l.node, "class") == Some(NameClass)
  }

  /** `TryFrom<Document> for Tournament`: the text of the first name span of the document. */
  function ParseTournament(doc: Node): (r: Result<Tournament, TournamentParseError>)
    ensures r.Ok? ==> r.value.doc == doc
    ensures r.Err? ==> r.error == NameParseError
  {
    var spans := Filter(DocumentNodes(doc), IsNameSpan);
    if spans == [] then Err(NameParseError) else Ok(Tournament(TextOf(spans[0].node), doc))
  }

  /** The name is the text of the first name span in document order, and the page fails to
      parse exactly when it has no name span. */
  lemma TournamentName(doc: Node)
    ensures ParseTournament(doc).Err? <==>
      forall j :: 0 <= j < |DocumentNodes(doc)| ==> !IsNameSpan(DocumentNodes(doc)[j])
    ensures ParseTournament(doc).Ok? ==>
      exists i :: 0 <= i < |DocumentNodes(doc)| && IsNameSpan(DocumentNodes(doc)[i]) &&
        ParseTournament(doc).value.name == TextOf(DocumentNodes(doc)[i].node) &&
        forall j :: 0 <= j < i ==> !IsNameSpan(DocumentNodes(doc)[j])
  {
    FilterHead(DocumentNodes(doc), IsNameSpan);
  }

  /** A match listing: a `div` whose class contains the match-content class; a div without a
      class counts as having the empty class and is skipped. */
  predicate IsMatchNode(l: Located)
  {
    IsElement(l.node, "div") && Contains(ClassOrEmpty(l.node), MatchClassMarker)
  }

  /** Every match listing of the document, in document order. */
  function MatchNodes(doc: Node): (r: seq<Located>)
    ensures forall k :: 0 <= k < |r| ==> IsMatchNode(r[k]) && InDoc(doc, r[k])
    ensures forall l :: l in DocumentNodes(doc) && IsMatchNode(l) ==> l in r
    ensures IsSubsequence(r, DocumentNodes(doc))
  {
    DocumentNodesInDoc(doc);
    Filter(DocumentNodes(doc), IsMatchNode)
  }

  /** A class-less element is never a match listing. */
  lemma UnclassedNotMatch(l: Located)
    requires Attr(l.node, "class").None?
    ensures !IsMatchNode(l)
  {
  }

  /** A match listing stays one whatever other classes it carries around the marker. */
  lemma MatchClassAnywhere(l: Located, before: string, after: string)
    requires IsElement(l.node, "div")
    requires Attr(l.node, "class") == Some(before + MatchClassMarker + after)
    ensures IsMatchNode(l)
  {
    var c := before + MatchClassMarker + after;
    assert OccursAt(c, MatchClassMarker, |before|) by {
      assert c[|before|..|before| + |MatchClassMarker|] == MatchClassMarker;
    }
    ContainsAt(c, MatchClassMarker);
  }

  /** None of the first `n` match listings makes the match parser panic. */
  predicate FirstMatchesParse(doc: Node, n: nat)
  {
    var ms := MatchNodes(doc);
    forall k :: 0 <= k < |ms| && k < n ==> !ParsePanics(doc, ms[k])
  }

  /** A match as the tournament reports it: every kind of match failure becomes
      `MatchesParseError`, a parsed match passes through. */
  function Collapse(r: Result<Match, MatchParseError>): (c: Result<Match, TournamentParseError>)
    ensures c.Ok? <==> r.Ok?
    ensures c.Ok? ==> c.value == r.value
    ensures c.Err? ==> c.error == MatchesParseError
  {
    match r
    case Ok(m) => Ok(m)
    case Err(_) => Err(MatchesParseError)
  }

  function Min(a: nat, b: nat): nat
  {
    if a <= b then a else b
  }

  /** `Tournament::top_n_matches`: the first `n` match listings, each parsed, in order. */
  method TopNMatches(t: Tournament, n: nat) returns (matches: seq<Result<Match, TournamentParseError>>)
    requires FirstMatchesParse(t.doc, n)
    ensures |matches| == Min(n, |MatchNodes(t.doc)|)
    ensures forall k :: 0 <= k < |matches| ==>
      matches[k] == Collapse(ParseMatch(t.doc, MatchNodes(t.doc)[k]))
  {
    matches := [];
    var matchesIter := MatchNodes(t.doc);
    var i := 0;
    while i < |matchesIter|
      invariant 0 <= i <= |matchesIter| && i <= n
      invariant |matches| == i
      invariant forall k :: 0 <= k < i ==>
        matches[k] == Collapse(ParseMatch(t.doc, matchesIter[k]))
    {
      if i >= n {
        break;
      }
      var matchNode := matchesIter[i];
      matches := matches + [Collapse(ParseMatch(t.doc, matchNode))];
      i := i + 1;
    }
  }
}
