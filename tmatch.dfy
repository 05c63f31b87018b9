/** One tennis match: its reconstruction from the subtree that lists it (`TryFrom<Node>`),
    the rendering of its per-set scores (`format_score`) and its one-line summary (`Display`). */
module Matches {
  import opened Wrappers
  import opened Seqs
  import opened Html

  newtype uint8 = x: int | 0 <= x < 256

  datatype MatchParseError =
    | PlayerParseError
    | ScoreParseError
    | StateParseError
    | ScoreFormatError

  /** The description printed for each kind of failure. */
  function Message(e: MatchParseError): (m: string)
    ensures IsPrefix("Error ", m)
    ensures e == ScoreFormatError <==> IsPrefix("Error formatting", m)
  {
    assert forall s :: IsPrefix("Error formatting", s) ==> s[6] == 'f';
    match e
    case PlayerParseError => "Error parsing player names"
    case ScoreParseError => "Error parsing scores"
    case StateParseError => "Error parsing match state"
    case ScoreFormatError => "Error formatting score"
  }

  /** Each kind of failure is described differently. */
  lemma MessagesDistinct(a: MatchParseError, b: MatchParseError)
    ensures a != b ==> Message(a) != Message(b)
  {
  }

  /** `state` is 1 when player one won, 2 when player two won, 3 when player one is serving
      and 4 when player two is serving. Nothing forces the score lists to have equal length. */
  datatype Match = Match(p1: string, p2: string, p1Scores: seq<string>, p2Scores: seq<string>, state: uint8)

  // ---------------------------------------------------------------------------------------
  // Score rendering

  predicate IsAscii(c: char)
  {
    c < '\U{80}'
  }

  /** The byte slices `&t[0..1]` and, for a token "6…" of two or more bytes, `&t[2..]` fall
      on character boundaries of `t`; with these first characters ASCII, byte and character
      positions agree for both cuts. */
  predicate Sliceable(t: string)
  {
    |t| > 0 && IsAscii(t[0]) && (t[0] == '6' && |t| > 1 ==> IsAscii(t[1]))
  }

  /** Rendering the set (l, r) does not panic: a token is sliced only when the other side is "7". */
  predicate SetSafe(l: string, r: string)
  {
    (l == "7" ==> Sliceable(r)) && (r == "7" ==> Sliceable(l))
  }

  /** No set that the paired walk reaches panics. */
  predicate PairsSafe(ls: seq<string>, rs: seq<string>)
  {
    forall i :: 0 <= i < |ls| && i < |rs| ==> SetSafe(ls[i], rs[i])
  }

  predicate ScoresSafe(m: Match)
  {
    PairsSafe(m.p1Scores, m.p2Scores)
  }

  /** A side's token shown as "0" when it is the placeholder "-". */
  function Placeholder(t: string): (r: string)
    ensures r == "0" <==> t == "-" || t == "0"
    ensures r != "-"
    ensures t != "-" ==> r == t
  {
    if t != "-" then t else "0"
  }

  /** How one set of the pair (l, r) is rendered: a tie-break " 7-6(…)", its mirror
      " 6(…)-7", or a plain " l-r". */
  function SetFragment(l: string, r: string): (f: string)
    requires SetSafe(l, r)
    ensures |f| > 1 && f[0] == ' '
  {
    if l == "7" && r[0] == '6' && |r| > 1 then " 7-6(" + r[2..] + ")"
    else if r == "7" && l[0] == '6' && |l| > 1 then " 6(" + l[2..] + ")-7"
    else " " + Placeholder(l) + "-" + Placeholder(r)
  }

  /** A token of a lost tie-break set: "6" followed by at least one more character. */
  predicate IsTieBreak(t: string)
  {
    |t| > 1 && t[0] == '6'
  }

  /** How one side of a set is shown, given the other side's token: the tie-break digits
      after a "6" when the other side took the set 7, otherwise the token itself with the
      placeholder replaced. */
  function SideText(t: string, other: string): string
    requires other == "7" ==> Sliceable(t)
  {
    if other == "7" && IsTieBreak(t) then "6(" + t[2..] + ")" else Placeholder(t)
  }

  /** Every rendered set is " <left side>-<right side>", each side shown independently of
      which operand it is: rendering the mirrored set swaps the two sides and nothing else. */
  lemma FragmentBySides(l: string, r: string)
    requires SetSafe(l, r)
    ensures SetFragment(l, r) == " " + SideText(l, r) + "-" + SideText(r, l)
    ensures SetFragment(r, l) == " " + SideText(r, l) + "-" + SideText(l, r)
  {
    FragmentOrdered(l, r);
    FragmentOrdered(r, l);
  }

  /** One operand order of `FragmentBySides`, branch by branch. */
  lemma FragmentOrdered(l: string, r: string)
    requires SetSafe(l, r)
    ensures SetFragment(l, r) == " " + SideText(l, r) + "-" + SideText(r, l)
  {
    if l == "7" && IsTieBreak(r) {
      assert SideText(l, r) == "7";
      assert " 7-6(" + r[2..] + ")" == " " + "7" + "-" + ("6(" + r[2..] + ")");
    } else if r == "7" && IsTieBreak(l) {
      assert SideText(r, l) == "7";
      assert " 6(" + l[2..] + ")-7" == " " + ("6(" + l[2..] + ")") + "-" + "7";
    } else {
      assert SideText(l, r) == Placeholder(l) && SideText(r, l) == Placeholder(r);
    }
  }

  /** The tie-break forms of a set that one side took 7 against a tie-break token. */
  lemma TieBreakFragments(t: string)
    requires IsTieBreak(t) && Sliceable(t)
    ensures SetFragment("7", t) == " 7-6(" + t[2..] + ")"
    ensures SetFragment(t, "7") == " 6(" + t[2..] + ")-7"
  {
  }

  /** Scores whose set of index i is (ls[i], rs[i]), rendered set by set. */
  function Fragments(ls: seq<string>, rs: seq<string>): (fs: seq<string>)
    requires |ls| == |rs| && PairsSafe(ls, rs)
    ensures |fs| == |ls|
    ensures forall i :: 0 <= i < |fs| ==> fs[i] == SetFragment(ls[i], rs[i])
  {
    seq(|ls|, i requires 0 <= i < |ls| => SetFragment(ls[i], rs[i]))
  }

  /** The scores walked as the left operand of every set: player two's when player two
      won or is serving, player one's otherwise. */
  function LeftScores(m: Match): seq<string>
  {
    if m.state == 2 || m.state == 4 then m.p2Scores else m.p1Scores
  }

  function RightScores(m: Match): seq<string>
  {
    if m.state == 2 || m.state == 4 then m.p1Scores else m.p2Scores
  }

  lemma PairsSafeSwap(ls: seq<string>, rs: seq<string>)
    requires PairsSafe(ls, rs)
    ensures PairsSafe(rs, ls)
  {
  }

  /** What `format_score` yields: the fragments of all sets in set order, or
      `ScoreFormatError` when one side has more sets than the other. */
  function ScoreString(m: Match): (r: Result<string, MatchParseError>)
    requires ScoresSafe(m)
    ensures r.Err? <==> |m.p1Scores| != |m.p2Scores|
    ensures r.Err? ==> r.error == ScoreFormatError
  {
    var ls, rs := LeftScores(m), RightScores(m);
    PairsSafeSwap(m.p1Scores, m.p2Scores);
    if |ls| == |rs| then Ok(Concat(Fragments(ls, rs))) else Err(ScoreFormatError)
  }

  /** The sets the walk has already passed are safe too. */
  lemma PairsSafePrefix(ls: seq<string>, rs: seq<string>, k: nat)
    requires PairsSafe(ls, rs) && k <= |ls| && k <= |rs|
    ensures PairsSafe(ls[..k], rs[..k])
  {
  }

  /** Rendering one more set appends that set's fragment. */
  lemma FragmentsSnoc(ls: seq<string>, rs: seq<string>, i: nat)
    requires PairsSafe(ls, rs) && i < |ls| && i < |rs|
    ensures SetSafe(ls[i], rs[i])
    ensures PairsSafe(ls[..i], rs[..i]) && PairsSafe(ls[..i + 1], rs[..i + 1])
    ensures Concat(Fragments(ls[..i + 1], rs[..i + 1])) ==
      Concat(Fragments(ls[..i], rs[..i])) + SetFragment(ls[i], rs[i])
  {
    assert SetSafe(ls[i], rs[i]);
    PairsSafePrefix(ls, rs, i);
    PairsSafePrefix(ls, rs, i + 1);
    assert Fragments(ls[..i + 1], rs[..i + 1]) ==
      Fragments(ls[..i], rs[..i]) + [SetFragment(ls[i], rs[i])];
    ConcatAppend(Fragments(ls[..i], rs[..i]), [SetFragment(ls[i], rs[i])]);
  }

  /** The `while let` walk of `format_score` over the left and the right operands: one
      fragment per set, and `ScoreFormatError` as soon as one side runs out before the other. */
  method WalkSets(iter1: seq<string>, iter2: seq<string>) returns (res: Result<string, MatchParseError>)
    requires PairsSafe(iter1, iter2)
    ensures res.Err? <==> |iter1| != |iter2|
    ensures res.Err? ==> res.error == ScoreFormatError
    ensures res.Ok? ==> res.value == Concat(Fragments(iter1, iter2))
  {
    var retStr := "";
    PairsSafePrefix(iter1, iter2, 0);
    var i := 0;
    while i < |iter1|
      invariant 0 <= i <= |iter1| && i <= |iter2|
      invariant PairsSafe(iter1[..i], iter2[..i])
      invariant retStr == Concat(Fragments(iter1[..i], iter2[..i]))
    {
      if i < |iter2| {
        var s1, s2 := iter1[i], iter2[i];
        FragmentsSnoc(iter1, iter2, i);
        var fragment;
        if s1 == "7" && s2[0] == '6' && |s2| > 1 {
          fragment := " 7-6(" + s2[2..] + ")";
        } else if s2 == "7" && s1[0] == '6' && |s1| > 1 {
          fragment := " 6(" + s1[2..] + ")-7";
        } else {
          var l := if s1 != "-" then s1 else "0";
          var r := if s2 != "-" then s2 else "0";
          fragment := " " + l + "-" + r;
        }
        retStr := retStr + fragment;
      } else {
        return Err(ScoreFormatError);
      }
      i := i + 1;
    }
    if i < |iter2| {
      return Err(ScoreFormatError);
    }
    assert iter1[..i] == iter1 && iter2[..i] == iter2;
    return Ok(retStr);
  }

  /** `Match::format_score`: walks the two sides' scores in lockstep, player two's on the left
      when player two won or is serving. */
  method FormatScore(m: Match) returns (res: Result<string, MatchParseError>)
    requires ScoresSafe(m)
    ensures res == ScoreString(m)
    ensures res.Err? <==> |m.p1Scores| != |m.p2Scores|
  {
    var iter1, iter2 := m.p1Scores, m.p2Scores;
    if m.state == 2 || m.state == 4 {
      iter1, iter2 := m.p2Scores, m.p1Scores;
    }
    PairsSafeSwap(m.p1Scores, m.p2Scores);
    res := WalkSets(iter1, iter2);
  }

  /** Whoever won or is serving, player two's scores are the left operand exactly when the
      state names player two: the match renders as the match with the two score lists
      exchanged and player one the winner. */
  lemma ScoreOrientation(m: Match)
    requires ScoresSafe(m)
    requires m.state == 2 || m.state == 4
    ensures PairsSafe(m.p2Scores, m.p1Scores)
    ensures ScoreString(m) == ScoreString(m.(p1Scores := m.p2Scores, p2Scores := m.p1Scores, state := 1))
  {
  }

  /** The rendered score lists the sets in order: the rendering of the first k sets is a
      prefix of it, and the fragment of set k comes right after. */
  lemma {:induction false} ScoreInSetOrder(m: Match, k: nat)
    requires ScoresSafe(m)
    requires |m.p1Scores| == |m.p2Scores| && k < |m.p1Scores|
    ensures ScoreString(m).Ok?
    ensures PairsSafe(LeftScores(m)[..k], RightScores(m)[..k])
    ensures SetSafe(LeftScores(m)[k], RightScores(m)[k])
    ensures
      var pre := Concat(Fragments(LeftScores(m)[..k], RightScores(m)[..k]));
      var f := SetFragment(LeftScores(m)[k], RightScores(m)[k]);
      |pre| + |f| <= |ScoreString(m).value| &&
      ScoreString(m).value[..|pre| + |f|] == pre + f
  {
    var ls, rs := LeftScores(m), RightScores(m);
    PairsSafeSwap(m.p1Scores, m.p2Scores);
    assert PairsSafe(ls, rs);
    FragmentsSnoc(ls, rs, k);
    var all := Fragments(ls, rs);
    assert Fragments(ls[..k + 1], rs[..k + 1]) == all[..k + 1];
    ConcatPrefix(all, k + 1);
  }

  // ---------------------------------------------------------------------------------------
  // Display

  /** The outcome phrase for a state: the winner or the server named first. */
  function Headline(m: Match): (r: Option<string>)
    ensures r.Some? <==> 1 <= m.state <= 4
    ensures m.state == 1 ==> r == Some(m.p1 + " d. " + m.p2)
    ensures m.state == 2 ==> r == Some(m.p2 + " d. " + m.p1)
    ensures m.state == 3 ==> r == Some("LIVE: *" + m.p1 + " v. " + m.p2)
    ensures m.state == 4 ==> r == Some("LIVE: *" + m.p2 + " v. " + m.p1)
  {
    if m.state == 1 then Some(m.p1 + " d. " + m.p2)
    else if m.state == 2 then Some(m.p2 + " d. " + m.p1)
    else if m.state == 3 then Some("LIVE: *" + m.p1 + " v. " + m.p2)
    else if m.state == 4 then Some("LIVE: *" + m.p2 + " v. " + m.p1)
    else None
  }

  /** `Display for Match`: the outcome phrase, a space, then the rendered score (which itself
      starts with a space); `None` stands for `fmt::Error`. */
  function Display(m: Match): (r: Option<string>)
    requires 1 <= m.state <= 4 ==> ScoresSafe(m)
    ensures r.Some? <==> 1 <= m.state <= 4 && |m.p1Scores| == |m.p2Scores|
    ensures r.Some? ==> r.value == Headline(m).value + " " + ScoreString(m).value
  {
    match Headline(m)
    case None => None
    case Some(h) =>
      match ScoreString(m)
      case Ok(s) => Some(h + " " + s)
      case Err(_) => None
  }

  /** The same match recorded with the two players in the other order. */
  function Mirror(m: Match): Match
  {
    Match(m.p2, m.p1, m.p2Scores, m.p1Scores,
      if m.state == 1 then 2 else if m.state == 2 then 1
      else if m.state == 3 then 4 else if m.state == 4 then 3
      else m.state)
  }

  /** The summary does not depend on which player the page lists first. */
  lemma DisplayMirror(m: Match)
    requires ScoresSafe(m)
    ensures ScoresSafe(Mirror(m))
    ensures Display(Mirror(m)) == Display(m)
  {
  }

  /** A finished match with no tie-break: the phrase and the score are joined by a space and
      the score begins with one, so two spaces separate them. */
  lemma DisplayExample()
    ensures Display(Match("Alice", "Bob", ["6", "7"], ["4", "6"], 1)) == Some("Alice d. Bob  6-4 7-6")
  {
    var m := Match("Alice", "Bob", ["6", "7"], ["4", "6"], 1);
    ExampleScore(m);
    assert "Alice" + " d. " + "Bob" == "Alice d. Bob";
    assert Headline(m) == Some("Alice d. Bob");
    assert "Alice d. Bob" + " " + " 6-4 7-6" == "Alice d. Bob  6-4 7-6";
  }

  /** The score of the example match: 6-4 then 7-6, each set led by a space. */
  lemma ExampleScore(m: Match)
    requires m.p1Scores == ["6", "7"] && m.p2Scores == ["4", "6"] && m.state == 1
    ensures ScoresSafe(m) && ScoreString(m) == Ok(" 6-4 7-6")
  {
    assert SetFragment("6", "4") == " 6-4";
    assert SetFragment("7", "6") == " 7-6";
    var fs := Fragments(m.p1Scores, m.p2Scores);
    assert |fs| == 2 && fs[0] == " 6-4" && fs[1] == " 7-6";
    assert fs[1..][1..] == [];
    assert Concat(fs[1..]) == " 7-6";
    assert Concat(fs) == " 6-4 7-6";
    assert LeftScores(m) == m.p1Scores && RightScores(m) == m.p2Scores;
  }

  /** A tie-break token is cut after its second character: a token written "6(3)" keeps its
      closing parenthesis and gets another, while "6 3" gives the intended " 7-6(3)". */
  lemma TieBreakExamples()
    ensures SetFragment("7", "6(3)") == " 7-6(3))"
    ensures SetFragment("7", "6 3") == " 7-6(3)"
    ensures SetFragment("6 3", "7") == " 6(3)-7"
    ensures SetFragment("-", "3") == " 0-3"
  {
  }

  // ---------------------------------------------------------------------------------------
  // State resolution

  /** The outcome from the winner's and the server's names, the winner checked first. */
  function ResolveState(winner: Option<string>, server: Option<string>, p1: string, p2: string)
    : (r: Result<uint8, MatchParseError>)
    ensures r.Err? ==> r.error == StateParseError
    ensures r.Ok? ==> 1 <= r.value <= 4
    ensures r == Ok(1) <==> winner == Some(p1)
    ensures r == Ok(2) <==> winner == Some(p2) && winner != Some(p1)
    ensures r == Ok(3) <==> server == Some(p1) && winner != Some(p1) && winner != Some(p2)
    ensures r == Ok(4) <==>
      server == Some(p2) && server != Some(p1) && winner != Some(p1) && winner != Some(p2)
  {
    if winner == Some(p1) then Ok(1)
    else if winner == Some(p2) then Ok(2)
    else if server == Some(p1) then Ok(3)
    else if server == Some(p2) then Ok(4)
    else Err(StateParseError)
  }

  /** A winner who is one of the players decides the outcome whatever the server marker says. */
  lemma WinnerTakesPriority(winner: Option<string>, s1: Option<string>, s2: Option<string>, p1: string, p2: string)
    requires winner == Some(p1) || winner == Some(p2)
    ensures ResolveState(winner, s1, p1, p2) == ResolveState(winner, s2, p1, p2)
    ensures ResolveState(winner, s1, p1, p2).Ok?
    ensures ResolveState(winner, s1, p1, p2).value <= 2
  {
  }

  // ---------------------------------------------------------------------------------------
  // Reconstruction from a match subtree

  const WinnerLabel := "Winner"
  const ServiceLabel := "Service"
  const StatsClass := "tc-match__stats"
  const SetClassMarker := "--set"
  /** Parent hops from a "Winner"/"Service" marker up to the container of that side's record. */
  const SideDepth: nat := 4

  /** The `title` of an anchor element. */
  function AnchorTitle(l: Located): (r: Option<string>)
    ensures r.Some? <==> IsElement(l.node, "a") && "title" in l.node.attrs
    ensures r.Some? ==> r.value == l.node.attrs["title"]
  {
    if IsElement(l.node, "a") then Attr(l.node, "title") else None
  }

  /** `find(Name("a")).filter_map(|n| n.attr("title"))`. */
  function Titles(ls: seq<Located>): seq<string>
  {
    FilterMap(ls, AnchorTitle)
  }

  /** A `small` element whose text is exactly `caption`. */
  predicate IsMarker(l: Located, caption: string)
  {
    IsElement(l.node, "small") && TextOf(l.node) == caption
  }

  function Markers(ls: seq<Located>, caption: string): (r: seq<Located>)
    ensures forall k :: 0 <= k < |r| ==> r[k] in ls && IsMarker(r[k], caption)
    ensures forall l :: l in ls && IsMarker(l, caption) ==> l in r
  {
    Filter(ls, (l: Located) => IsMarker(l, caption))
  }

  /** The markers keep document order: there are none exactly when no node is one, and the
      first is the earliest node that is one. */
  lemma MarkersFirst(ls: seq<Located>, caption: string)
    ensures var r := Markers(ls, caption);
      (r == [] <==> forall j :: 0 <= j < |ls| ==> !IsMarker(ls[j], caption)) &&
      (r != [] ==>
        exists i :: 0 <= i < |ls| && ls[i] == r[0] && IsMarker(ls[i], caption) &&
          forall j :: 0 <= j < i ==> !IsMarker(ls[j], caption))
  {
    FilterHead(ls, (l: Located) => IsMarker(l, caption));
  }

  /** The four `parent().unwrap()` calls from `marker` succeed: the marker has four
      ancestors (the root has no parent). The lookup of the fourth is stated as well;
      `HopLands` shows it always succeeds for a node of the document. */
  predicate CanHop(doc: Node, marker: Located)
  {
    |marker.path| >= SideDepth &&
    NodeAt(doc, marker.path[..|marker.path| - SideDepth]).Some?
  }

  /** A marker with four ancestors can always be hopped from. */
  lemma HopLands(doc: Node, marker: Located)
    requires InDoc(doc, marker) && |marker.path| >= SideDepth
    ensures CanHop(doc, marker)
  {
    NodeAtPrefix(doc, marker.path, |marker.path| - SideDepth);
  }

  /** The container of one side's record: four levels above its marker. */
  function SideContainer(doc: Node, marker: Located): (c: Located)
    requires CanHop(doc, marker)
    ensures InDoc(doc, c)
    ensures |c.path| + SideDepth == |marker.path| && c.path == marker.path[..|c.path|]
  {
    var p := marker.path[..|marker.path| - SideDepth];
    Located(p, NodeAt(doc, p).value)
  }

  /** The first titled anchor inside the side container of `marker`. */
  function SideName(doc: Node, marker: Located): Option<string>
    requires CanHop(doc, marker)
  {
    var names := Titles(Descendants(SideContainer(doc, marker)));
    if names == [] then None else Some(names[0])
  }

  /** The side's name is the title of the first titled anchor below the side container, in
      document order, and there is none exactly when no anchor below it carries a title. */
  lemma SideNameFirst(doc: Node, marker: Located)
    requires CanHop(doc, marker)
    ensures
      var ds := Descendants(SideContainer(doc, marker));
      var r := SideName(doc, marker);
      (r.None? <==> forall j :: 0 <= j < |ds| ==> AnchorTitle(ds[j]).None?) &&
      (r.Some? ==> exists i :: 0 <= i < |ds| && AnchorTitle(ds[i]) == r &&
                     forall j :: 0 <= j < i ==> AnchorTitle(ds[j]).None?)
  {
    FilterMapHead(Descendants(SideContainer(doc, marker)), AnchorTitle);
  }

  /** The first "Winner" marker has fewer than four ancestors. */
  predicate WinnerHopPanics(doc: Node, ls: seq<Located>)
  {
    var ms := Markers(ls, WinnerLabel);
    ms != [] && !CanHop(doc, ms[0])
  }

  /** The winner's name: none without a "Winner" marker, `StateParseError` when the side
      container of the first marker holds no titled anchor. */
  function WinnerName(doc: Node, ls: seq<Located>): (r: Result<Option<string>, MatchParseError>)
    requires !WinnerHopPanics(doc, ls)
    ensures r.Err? ==> r.error == StateParseError
    ensures r == Ok(None) <==> Markers(ls, WinnerLabel) == []
    ensures
      var ms := Markers(ls, WinnerLabel);
      ms != [] ==> (r.Err? <==> SideName(doc, ms[0]).None?) &&
                   (r.Ok? ==> r.value == SideName(doc, ms[0]))
  {
    var ms := Markers(ls, WinnerLabel);
    if ms == [] then Ok(None)
    else match SideName(doc, ms[0])
      case Some(name) => Ok(Some(name))
      case None => Err(StateParseError)
  }

  /** The first "Service" marker has fewer than four ancestors, or its side container holds
      no titled anchor (the `unwrap` of the server lookup). */
  predicate ServerPanics(doc: Node, ls: seq<Located>)
  {
    var ms := Markers(ls, ServiceLabel);
    ms != [] && (!CanHop(doc, ms[0]) || SideName(doc, ms[0]).None?)
  }

  /** The server's name, present exactly when there is a "Service" marker. */
  function ServerName(doc: Node, ls: seq<Located>): (r: Option<string>)
    requires !ServerPanics(doc, ls)
    ensures r.None? <==> Markers(ls, ServiceLabel) == []
    ensures
      var ms := Markers(ls, ServiceLabel);
      ms != [] ==> r == SideName(doc, ms[0])
  {
    var ms := Markers(ls, ServiceLabel);
    if ms == [] then None else SideName(doc, ms[0])
  }

  /** A statistics block: a `div` whose class is exactly "tc-match__stats". */
  predicate IsStats(l: Located)
  {
    IsElement(l.node, "div") && ClassOrEmpty(l.node) == StatsClass
  }

  /** A child whose class contains "--set": one set's score cell. */
  predicate IsSetCell(n: Node)
  {
    Contains(ClassOrEmpty(n), SetClassMarker)
  }

  /** One side's scores: the trimmed text of each set cell among the block's children. */
  function SetScores(stats: Node): (r: seq<string>)
    ensures stats.Text? ==> r == []
    ensures stats.Element? ==> |r| <= |stats.children|
    ensures forall k :: 0 <= k < |r| ==> Trim(r[k]) == r[k]
  {
    assert forall t :: Trim(Trim(t)) == Trim(t) by {
      forall t { TrimIdempotent(t); }
    }
    match stats
    case Text(_) => []
    case Element(_, _, cs) => Map(Filter(cs, IsSetCell), (c: Node) => Trim(TextOf(c)))
  }

  /** One score per set cell, in child order: the trimmed text of the cell. */
  lemma SetScoresCells(stats: Node)
    requires stats.Element?
    ensures
      var cells := Filter(stats.children, IsSetCell);
      var r := SetScores(stats);
      |r| == |cells| && forall k :: 0 <= k < |r| ==> r[k] == Trim(TextOf(cells[k]))
  {
  }

  /** The two sides' scores: one statistics block per side, exactly two blocks. */
  function ScoreGroups(ls: seq<Located>): (r: Result<(seq<string>, seq<string>), MatchParseError>)
    ensures r.Err? <==> |Filter(ls, IsStats)| != 2
    ensures r.Err? ==> r.error == ScoreParseError
    ensures r.Ok? ==> r.value.0 == SetScores(Filter(ls, IsStats)[0].node) &&
                      r.value.1 == SetScores(Filter(ls, IsStats)[1].node)
  {
    match CollectPair(Map(Filter(ls, IsStats), (l: Located) => SetScores(l.node)))
    case None => Err(ScoreParseError)
    case Some(pair) => Ok(pair)
  }

  /** Parsing the match at `m` panics: on the winner's or the server's parent hops or on
      the server's anchor lookup, each reached only when the earlier steps succeeded. */
  predicate ParsePanics(doc: Node, m: Located)
  {
    var ls := Descendants(m);
    |Titles(ls)| == 2 &&
    (WinnerHopPanics(doc, ls) || (WinnerName(doc, ls).Ok? && ServerPanics(doc, ls)))
  }

  /** `TryFrom<Node> for Match`: players, then the winner, then the server, then the scores,
      then the state; the first failing step decides the error. */
  function ParseMatch(doc: Node, m: Located): (r: Result<Match, MatchParseError>)
    requires !ParsePanics(doc, m)
    ensures r.Err? ==> r.error != ScoreFormatError
    ensures r.Ok? ==> 1 <= r.value.state <= 4
    ensures r.Ok? ==> [r.value.p1, r.value.p2] == Titles(Descendants(m))
    ensures r.Ok? ==> ScoreGroups(Descendants(m)) == Ok((r.value.p1Scores, r.value.p2Scores))
  {
    var ls := Descendants(m);
    match CollectPair(Titles(ls))
    case None => Err(PlayerParseError)
    case Some((p1, p2)) =>
      match WinnerName(doc, ls)
      case Err(e) => Err(e)
      case Ok(winner) =>
        var server := ServerName(doc, ls);
        match ScoreGroups(ls)
        case Err(e) => Err(e)
        case Ok((s1, s2)) =>
          match ResolveState(winner, server, p1, p2)
          case Err(e) => Err(e)
          case Ok(state) => Ok(Match(p1, p2, s1, s2, state))
  }

  /** `PlayerParseError` exactly when the subtree does not hold exactly two titled anchors. */
  lemma PlayerGate(doc: Node, m: Located)
    requires !ParsePanics(doc, m)
    ensures ParseMatch(doc, m) == Err(PlayerParseError) <==> |Titles(Descendants(m))| != 2
  {
  }

  /** With the players found, a "Winner" marker whose side holds no titled anchor fails the
      parse with `StateParseError`, before the scores are looked at. */
  lemma WinnerGate(doc: Node, m: Located)
    requires !ParsePanics(doc, m)
    requires |Titles(Descendants(m))| == 2
    ensures WinnerName(doc, Descendants(m)).Err? ==> ParseMatch(doc, m) == Err(StateParseError)
  {
  }

  /** With the players and the winner found, `ScoreParseError` exactly when there are not
      exactly two statistics blocks. */
  lemma ScoreGate(doc: Node, m: Located)
    requires !ParsePanics(doc, m)
    requires |Titles(Descendants(m))| == 2
    ensures WinnerName(doc, Descendants(m)).Ok? ==>
      (ParseMatch(doc, m) == Err(ScoreParseError) <==> |Filter(Descendants(m), IsStats)| != 2)
  {
  }

  /** The scores of a parsed match are the set cells of the first and of the second
      statistics block of its subtree, in that order. */
  lemma ParsedScores(doc: Node, m: Located)
    requires !ParsePanics(doc, m)
    ensures ParseMatch(doc, m).Ok? ==>
      var stats := Filter(Descendants(m), IsStats);
      |stats| == 2 &&
      ParseMatch(doc, m).value.p1Scores == SetScores(stats[0].node) &&
      ParseMatch(doc, m).value.p2Scores == SetScores(stats[1].node)
  {
  }

  /** A successfully parsed match whose winner marker names one of the players is a finished
      match won by that player, never a live one. */
  lemma WinnerDecidesOutcome(doc: Node, m: Located)
    requires !ParsePanics(doc, m)
    ensures ParseMatch(doc, m).Ok? ==>
      var t := ParseMatch(doc, m).value;
      var w := WinnerName(doc, Descendants(m));
      w.Ok? &&
      (w.value == Some(t.p1) ==> t.state == 1) &&
      (w.value == Some(t.p2) && t.p2 != t.p1 ==> t.state == 2) &&
      (t.state <= 2 <==> w.value == Some(t.p1) || w.value == Some(t.p2))
  {
  }

  /** The state of a parsed match is what the winner and the server resolve to: a finished
      match from the "Winner" marker, a live one from the "Service" marker. */
  lemma ParsedState(doc: Node, m: Located)
    requires !ParsePanics(doc, m)
    ensures ParseMatch(doc, m).Ok? ==>
      var ls := Descendants(m);
      var t := ParseMatch(doc, m).value;
      !WinnerHopPanics(doc, ls) && WinnerName(doc, ls).Ok? && !ServerPanics(doc, ls) &&
      ResolveState(WinnerName(doc, ls).value, ServerName(doc, ls), t.p1, t.p2) == Ok(t.state)
  {
  }

  /** With the players, the winner and the two statistics blocks found, `StateParseError`
      exactly when neither the winner nor the server names one of the players. */
  lemma StateGate(doc: Node, m: Located)
    requires !ParsePanics(doc, m)
    requires |Titles(Descendants(m))| == 2
    ensures
      var ls := Descendants(m);
      var names := Titles(ls);
      WinnerName(doc, ls).Ok? && |Filter(ls, IsStats)| == 2 ==>
        (ParseMatch(doc, m) == Err(StateParseError) <==>
         ResolveState(WinnerName(doc, ls).value, ServerName(doc, ls), names[0], names[1]).Err?)
  {
  }

  /** A subtree with neither a "Winner" nor a "Service" marker never parses; with its players
      and scores in place it fails with `StateParseError`. */
  lemma NoMarkersNoOutcome(doc: Node, m: Located)
    requires !ParsePanics(doc, m)
    requires Markers(Descendants(m), WinnerLabel) == [] && Markers(Descendants(m), ServiceLabel) == []
    ensures ParseMatch(doc, m).Err?
    ensures |Titles(Descendants(m))| == 2 && |Filter(Descendants(m), IsStats)| == 2 ==>
      ParseMatch(doc, m) == Err(StateParseError)
  {
  }

  /** A parsed match always has a summary line unless its two score lists differ in length. */
  lemma ParsedMatchDisplays(doc: Node, m: Located)
    requires !ParsePanics(doc, m)
    ensures ParseMatch(doc, m).Ok? && ScoresSafe(ParseMatch(doc, m).value) ==>
      var t := ParseMatch(doc, m).value;
      (Display(t).Some? <==> |t.p1Scores| == |t.p2Scores|)
  {
  }
}
