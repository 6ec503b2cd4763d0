/** Matching, said of the texts of filters and names alone (section 4.7.1 of MQTT 5.0 and
    cloudmqtt/src/topic.rs): what a filter without wildcards, with `+` and with a trailing
    `#` matches, in the code and in the standard. */
module TopicTexts {
  import opened Wire
  import opened Topics

  /** A piece of a filter against a piece of a name. */
  predicate PieceFits(piece: bytes, text: bytes) {
    piece == [PLUS] || piece == text
  }

  /** Number of pieces in front of a trailing `#`. */
  function FrontPieces(pieces: seq<bytes>): nat
    requires pieces != []
  {
    if pieces[|pieces| - 1] == [HASH] then |pieces| - 1 else |pieces|
  }

  predicate FrontFits(pieces: seq<bytes>, name: seq<bytes>)
    requires pieces != []
  {
    forall i :: 0 <= i < FrontPieces(pieces) && i < |name| ==> PieceFits(pieces[i], name[i])
  }

  /** Section 4.7.1: piece by piece, and as many pieces as the filter asks for. */
  predicate StandardFits(pieces: seq<bytes>, name: seq<bytes>)
    requires pieces != []
  {
    && FrontFits(pieces, name)
    && if FrontPieces(pieces) < |pieces| then |name| >= FrontPieces(pieces) else |name| == |pieces|
  }

  lemma LevelOf(f: Filter, i: nat)
    requires i < |f.levels|
    ensures |TextsOf(f.levels)| == |f.levels| && TextsOf(f.levels)[i] == Text(f.levels[i])
  {
  }

  lemma LevelFits(l: Level, text: bytes)
    requires !l.MultiLevel? && (l.SingleLevel? <==> Text(l) == [PLUS]) && (l.EmptyLevel? <==> Text(l) == [])
    ensures Compatible(l, text) <==> PieceFits(Text(l), text)
  {
  }

  lemma FrontIsCut(s: bytes)
    requires NewFilter(s).Built?
    ensures Cut(NewFilter(s).filter.levels) == FrontPieces(Split(s)) <= |Split(s)| == |NewFilter(s).filter.levels|
  {
    hide NewFilter, Split, Cut;
    BuiltFilter(s);
    CutOfBuilt(s);
    var f := NewFilter(s).filter;
    LevelOf(f, |f.levels| - 1);
  }

  /** What the code compares, on texts: the pieces in front of a trailing `#`, as far as
      both sides have them, must be `+` or equal. */
  lemma MatchesOnTexts(s: bytes, t: bytes)
    requires NewFilter(s).Built? && NewName(t).Named?
    ensures FrontCompatible(NewFilter(s).filter.levels, NewName(t).levels) <==> FrontFits(Split(s), Split(t))
  {
    hide NewFilter, NewName, Split, Cut, Compatible, PieceFits, FrontPieces;
    BuiltFilter(s);
    NameAccepted(t);
    FrontIsCut(s);
    var f := NewFilter(s).filter;
    forall i | 0 <= i < FrontPieces(Split(s)) && i < |Split(t)|
      ensures Compatible(f.levels[i], Split(t)[i]) <==> PieceFits(Split(s)[i], Split(t)[i])
    {
      LevelOf(f, i);
      CutBefore(f.levels, i);
      LevelFits(f.levels[i], Split(t)[i]);
    }
  }

  lemma StandardOnTexts(s: bytes, t: bytes)
    requires NewFilter(s).Built? && NewName(t).Named?
    ensures StandardMatch(NewFilter(s).filter.levels, NewName(t).levels) <==> StandardFits(Split(s), Split(t))
  {
    hide NewFilter, NewName, Split, Cut, FrontCompatible, StandardMatch, FrontFits, FrontPieces;
    NameAccepted(t);
    FrontIsCut(s);
    MatchesOnTexts(s, t);
    MatchesAgainstStandard(NewFilter(s).filter.levels, NewName(t).levels);
  }

  // ------------------------------------------------------------ joining and prefixes

  lemma {:induction false} JoinConcat(a: seq<bytes>, b: seq<bytes>)
    requires a != [] && b != []
    ensures Join(a + b) == Join(a) + ([SLASH] + Join(b))
  {
    if |a| == 1 {
      assert (a + b)[1..] == b && (a + b)[0] == a[0];
      ConcatThree(a[0], [SLASH], Join(b));
    } else {
      assert (a + b)[1..] == a[1..] + b && (a + b)[0] == a[0];
      JoinConcat(a[1..], b);
      ConcatThree(a[0] + [SLASH], Join(a[1..]), [SLASH] + Join(b));
    }
  }

  lemma ConcatThree(a: bytes, b: bytes, c: bytes)
    ensures a + b + c == a + (b + c)
  {
  }

  /** The text with a separator behind it, so that whole pieces are compared. */
  function Closed(s: bytes): bytes {
    s + [SLASH]
  }

  lemma SplitInjective(s: bytes, t: bytes)
    requires Split(s) == Split(t)
    ensures s == t
  {
    JoinSplit(s);
    JoinSplit(t);
  }

  /** The pieces of s begin those of t exactly when the text does, at a separator or at
      the end. */
  lemma SplitPrefix(s: bytes, t: bytes)
    ensures Split(s) <= Split(t) <==> Closed(s) <= Closed(t)
  {
    hide Split;
    if Split(s) <= Split(t) {
      PiecesBegin(s, t);
    }
    if Closed(s) <= Closed(t) {
      TextBegins(s, t);
    }
  }

  lemma PiecesBegin(s: bytes, t: bytes)
    requires Split(s) <= Split(t)
    ensures Closed(s) <= Closed(t)
  {
    hide Split, Join;
    var rest := Split(t)[|Split(s)|..];
    assert Split(t) == Split(s) + rest;
    if rest == [] {
      assert Split(t) == Split(s);
      SplitInjective(s, t);
    } else {
      JoinConcat(Split(s), rest);
      JoinSplit(s);
      JoinSplit(t);
      ConcatThree(s, [SLASH], Join(rest));
    }
  }

  lemma TextBegins(s: bytes, t: bytes)
    requires Closed(s) <= Closed(t)
    ensures Split(s) <= Split(t)
  {
    hide Split;
    if |s| == |t| {
      assert s == Closed(s)[..|s|] && t == Closed(t)[..|t|];
      assert s == t;
    } else {
      var v := t[|s| + 1..];
      assert t[..|s| + 1] == Closed(t)[..|s| + 1];
      assert t == Closed(s) + v;
      ConcatThree(s, [SLASH], v);
      SplitJoined(s, v);
    }
  }

  lemma AgreeIsPrefix(a: seq<bytes>, b: seq<bytes>)
    ensures (forall i :: 0 <= i < |a| && i < |b| ==> a[i] == b[i]) <==> a <= b || b <= a
  {
  }

  // --------------------------------------------------------------- laws on whole texts

  lemma PlainPieces(s: bytes, i: nat)
    requires PLUS !in s && HASH !in s && i < |Split(s)|
    ensures Split(s)[i] != [PLUS] && Split(s)[i] != [HASH]
  {
    SplitPreserves(s, PLUS);
    SplitPreserves(s, HASH);
    assert PLUS !in Split(s)[i] && HASH !in Split(s)[i];
  }

  /** A filter without wildcards: by the standard it matches its own text alone; the code
      accepts every name that begins with it or begins it, piece by piece. */
  lemma PlainFilter(s: bytes, t: bytes)
    requires NewFilter(s).Built? && NewName(t).Named? && PLUS !in s && HASH !in s
    ensures var f, n := NewFilter(s).filter.levels, NewName(t).levels;
            && (StandardMatch(f, n) <==> s == t)
            && (FrontCompatible(f, n) <==> Closed(s) <= Closed(t) || Closed(t) <= Closed(s))
            && (|f| == |n| ==> (FrontCompatible(f, n) <==> s == t))
  {
    hide NewFilter, NewName, Split, StandardMatch, FrontCompatible, FrontPieces, Closed;
    MatchesOnTexts(s, t);
    StandardOnTexts(s, t);
    FrontIsCut(s);
    NameAccepted(t);
    PlainFront(s, t);
    AgreeIsPrefix(Split(s), Split(t));
    SplitPrefix(s, t);
    SplitPrefix(t, s);
    if |Split(s)| == |Split(t)| && FrontFits(Split(s), Split(t)) {
      SplitInjective(s, t);
    }
  }

  lemma PlainFront(s: bytes, t: bytes)
    requires PLUS !in s && HASH !in s
    ensures FrontPieces(Split(s)) == |Split(s)|
    ensures FrontFits(Split(s), Split(t)) <==>
            forall i :: 0 <= i < |Split(s)| && i < |Split(t)| ==> Split(s)[i] == Split(t)[i]
  {
    hide Split;
    PlainPieces(s, |Split(s)| - 1);
    forall i | 0 <= i < |Split(s)| && i < |Split(t)|
      ensures PieceFits(Split(s)[i], Split(t)[i]) <==> Split(s)[i] == Split(t)[i]
    {
      PlainPieces(s, i);
    }
  }

  lemma HashPiece()
    ensures Split([HASH]) == [[HASH]] && Split([PLUS]) == [[PLUS]]
  {
    SplitPlain([HASH]);
    SplitPlain([PLUS]);
  }

  /** The filter s/#, s without wildcards: by the standard it matches s and everything
      below it, that is, whatever begins with s at a separator or at the end; the code
      also accepts what begins s. */
  lemma TrailingHash(s: bytes, t: bytes)
    requires PLUS !in s && HASH !in s
    requires NewFilter(s + ([SLASH] + [HASH])).Built? && NewName(t).Named?
    ensures var f, n := NewFilter(s + ([SLASH] + [HASH])).filter.levels, NewName(t).levels;
            && (StandardMatch(f, n) <==> Closed(s) <= Closed(t))
            && (FrontCompatible(f, n) <==> Closed(s) <= Closed(t) || Closed(t) <= Closed(s))
  {
    hide NewFilter, NewName, Split, StandardMatch, FrontCompatible, Closed;
    var filter := s + ([SLASH] + [HASH]);
    MatchesOnTexts(filter, t);
    StandardOnTexts(filter, t);
    SplitJoined(s, [HASH]);
    HashPiece();
    PlainFront(s, t);
    HashFront(Split(s), Split(t));
    AgreeIsPrefix(Split(s), Split(t));
    SplitPrefix(s, t);
    SplitPrefix(t, s);
  }

  lemma HashFront(front: seq<bytes>, name: seq<bytes>)
    requires front != [] && front[|front| - 1] != [HASH]
    ensures var pieces := front + [[HASH]];
            && FrontPieces(pieces) == |front| == FrontPieces(front)
            && (FrontFits(pieces, name) <==> FrontFits(front, name))
            && (StandardFits(pieces, name) <==> FrontFits(front, name) && |name| >= |front|)
  {
    var pieces := front + [[HASH]];
    assert forall i :: 0 <= i < |front| ==> pieces[i] == front[i];
    assert pieces[|pieces| - 1] == [HASH];
  }

  /** The filter `#` matches every name, in the code and in the standard. */
  lemma HashAlone(t: bytes)
    requires NewName(t).Named?
    ensures NewFilter([HASH]).Built?
    ensures var f, n := NewFilter([HASH]).filter.levels, NewName(t).levels;
            StandardMatch(f, n) && FrontCompatible(f, n)
  {
    hide NewFilter, NewName, StandardMatch, FrontCompatible;
    HashPiece();
    FilterAccepted([HASH]);
    MatchesOnTexts([HASH], t);
    StandardOnTexts([HASH], t);
  }

  function Around(a: seq<bytes>, x: bytes, b: seq<bytes>): seq<bytes> {
    a + [x] + b
  }

  lemma AroundAt(a: seq<bytes>, x: bytes, b: seq<bytes>, i: nat)
    requires i < |a| + 1 + |b|
    ensures |Around(a, x, b)| == |a| + 1 + |b|
    ensures Around(a, x, b)[i] == if i < |a| then a[i] else if i == |a| then x else b[i - |a| - 1]
  {
  }

  lemma AroundFits(a: seq<bytes>, b: seq<bytes>, name: seq<bytes>, i: nat)
    requires i < |name| == |a| + 1 + |b|
    requires forall j :: 0 <= j < |a| ==> a[j] != [PLUS]
    requires forall j :: 0 <= j < |b| ==> b[j] != [PLUS]
    ensures |Around(a, [PLUS], b)| == |Around(a, name[|a|], b)| == |name|
    ensures PieceFits(Around(a, [PLUS], b)[i], name[i]) <==> name[i] == Around(a, name[|a|], b)[i]
  {
    hide Around;
    AroundAt(a, [PLUS], b, i);
    AroundAt(a, name[|a|], b, i);
  }

  lemma AroundFront(a: seq<bytes>, b: seq<bytes>)
    requires b != [] && b[|b| - 1] != [HASH]
    ensures Around(a, [PLUS], b) != [] && FrontPieces(Around(a, [PLUS], b)) == |Around(a, [PLUS], b)| == |a| + 1 + |b|
  {
    hide Around;
    AroundAt(a, [PLUS], b, |a| + |b|);
  }

  lemma SinglePieces(a: seq<bytes>, b: seq<bytes>, name: seq<bytes>)
    requires a != [] && b != [] && b[|b| - 1] != [HASH]
    requires forall i :: 0 <= i < |a| ==> a[i] != [PLUS]
    requires forall i :: 0 <= i < |b| ==> b[i] != [PLUS]
    ensures Around(a, [PLUS], b) != []
    ensures StandardFits(Around(a, [PLUS], b), name) <==> |name| > |a| && name == Around(a, name[|a|], b)
  {
    hide Around, PieceFits, FrontPieces;
    AroundFront(a, b);
    if |name| > |a| {
      AroundAt(a, name[|a|], b, 0);
    }
    if |name| == |a| + 1 + |b| {
      forall i | 0 <= i < |name|
        ensures |Around(a, name[|a|], b)| == |name|
        ensures PieceFits(Around(a, [PLUS], b)[i], name[i]) <==> name[i] == Around(a, name[|a|], b)[i]
      {
        AroundFits(a, b, name, i);
      }
    }
  }

  /** The filter a/+/b, a and b without wildcards, matches by the standard exactly the
      names a/x/b with one piece x, which may be empty. */
  lemma SingleLevelBetween(a: bytes, b: bytes, t: bytes)
    requires PLUS !in a && HASH !in a && PLUS !in b && HASH !in b
    requires NewFilter(a + ([SLASH] + ([PLUS] + ([SLASH] + b)))).Built? && NewName(t).Named?
    ensures StandardMatch(NewFilter(a + ([SLASH] + ([PLUS] + ([SLASH] + b)))).filter.levels, NewName(t).levels) <==>
            exists x: bytes :: SLASH !in x && t == Between(a, x, b)
  {
    hide NewFilter, NewName, Split, StandardMatch;
    var filter := Between(a, [PLUS], b);
    StandardOnTexts(filter, t);
    BetweenSplit(a, [PLUS], b);
    PlainPieces(b, |Split(b)| - 1);
    forall i | 0 <= i < |Split(a)| ensures Split(a)[i] != [PLUS] {
      PlainPieces(a, i);
    }
    forall i | 0 <= i < |Split(b)| ensures Split(b)[i] != [PLUS] {
      PlainPieces(b, i);
    }
    SinglePieces(Split(a), Split(b), Split(t));
    if StandardFits(Split(filter), Split(t)) {
      var x := Split(t)[|Split(a)|];
      SplitHasNoSlash(t);
      BetweenSplit(a, x, b);
      SplitInjective(t, Between(a, x, b));
      assert t == Between(a, x, b);
    }
    if exists x: bytes :: SLASH !in x && t == Between(a, x, b) {
      var x: bytes :| SLASH !in x && t == Between(a, x, b);
      BetweenSplit(a, x, b);
      AroundAt(Split(a), x, Split(b), |Split(a)|);
    }
  }

  function Between(a: bytes, x: bytes, b: bytes): bytes {
    a + ([SLASH] + (x + ([SLASH] + b)))
  }

  lemma BetweenSplit(a: bytes, x: bytes, b: bytes)
    requires SLASH !in x
    ensures Split(Between(a, x, b)) == Around(Split(a), x, Split(b))
  {
    hide Split;
    SplitJoined(a, x + ([SLASH] + b));
    SplitJoined(x, b);
    SplitPlain(x);
    assert Split(a) + ([x] + Split(b)) == Split(a) + [x] + Split(b);
  }
}
