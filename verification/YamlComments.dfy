/**
 Where a comment starts on a line, said of the line: at the first `#` outside quoted strings that comes first or behind
 a blank. The scan of the reader cuts there and nowhere else.
 */
module YamlComments {
  import opened Wrappers
  import opened YamlText

  /** A quoted string starts there: with a quote that comes first or behind a blank, an opening bracket, a comma or a
      colon. */
  predicate QuoteStarts(s: string, i: nat)
    requires i < |s|
  {
    && (s[i] == '"' || s[i] == '\'')
    && (i == 0 || s[i - 1] == ' ' || s[i - 1] == '\t' || s[i - 1] == '[' || s[i - 1] == '{' || s[i - 1] == ',' ||
        s[i - 1] == ':')
  }

  /** From `i` to `j` is one quoted string, up to the next such quote or the end, or else one character. */
  predicate IsPiece(s: string, i: nat, j: nat)
    requires i < |s|
  {
    if QuoteStarts(s, i) then
      && i < j <= |s| && (forall k :: i < k < j - 1 ==> s[k] != s[i])
      && ((j > i + 1 && s[j - 1] == s[i]) || (j == |s| && forall k :: i < k < j ==> s[k] != s[i]))
    else j == i + 1
  }

  /** The position is outside quoted strings: whole pieces come before it. */
  ghost predicate IsOutside(s: string, i: nat)
    requires i <= |s|
  {
    i == 0 || exists j: nat :: j < i && IsOutside(s, j) && IsPiece(s, j, i)
  }

  ghost predicate CommentStarts(s: string, i: nat)
    requires i < |s|
  {
    s[i] == '#' && IsOutside(s, i) && (i == 0 || s[i - 1] == ' ' || s[i - 1] == '\t')
  }

  /** The character before a position, where the beginning counts as one behind a blank. */
  function Prev(s: string, i: nat): char
    requires i <= |s|
  {
    if i == 0 then ' ' else s[i - 1]
  }

  function ShiftBy(n: nat, r: Scanned): Scanned {
    match r
    case Cut(k) => Cut(n + k)
    case Through(q) => Through(q)
  }

  /** The scan from a position outside: over a quoted string, or one character, or it cuts. */
  lemma {:induction false} ScanOverQuoted(s: string, i: nat, k: nat, j: nat)
    requires i < k <= j <= |s| && QuoteStarts(s, i) && IsPiece(s, i, j)
    requires k < j || (k == j && j == |s| && !(j > i + 1 && s[j - 1] == s[i]))
    ensures var r := Scan(s[k..], Prev(s, k), Some(s[i]));
            if j > i + 1 && s[j - 1] == s[i] then r == ShiftBy(j - k, Scan(s[j..], Prev(s, j), None))
            else r == Through(Some(s[i]))
    decreases j - k
  {
    hide Scan, QuoteStarts, Prev;
    if k < |s| {
      ScanInside(s, k, s[i]);
      if s[k] != s[i] {
        ScanOverQuoted(s, i, k + 1, j);
      } else {
        assert k == j - 1;
      }
    } else {
      NothingInside(s[k..], Prev(s, k), s[i]);
    }
  }

  lemma ScanInside(s: string, k: nat, q: char)
    requires k < |s|
    ensures Scan(s[k..], Prev(s, k), Some(q)) ==
              ShiftBy(1, Scan(s[k + 1..], Prev(s, k + 1), if s[k] == q then None else Some(q)))
  {
    assert s[k..][0] == s[k] && s[k..][1..] == s[k + 1..];
  }

  lemma NothingInside(s: string, prev: char, q: char)
    requires s == ""
    ensures Scan(s, prev, Some(q)) == Through(Some(q))
  {
  }

  /** Every position in the text starts a piece. */
  lemma {:induction false} QuotedEnds(s: string, i: nat, k: nat) returns (j: nat)
    requires i < k <= |s| && QuoteStarts(s, i) && forall l :: i < l < k ==> s[l] != s[i]
    ensures IsPiece(s, i, j)
    decreases |s| - k
  {
    if k == |s| || s[k] == s[i] {
      j := if k == |s| then k else k + 1;
    } else {
      j := QuotedEnds(s, i, k + 1);
    }
  }

  lemma OnePiece(s: string, i: nat, j: nat, k: nat)
    requires i < |s| && IsPiece(s, i, j) && IsPiece(s, i, k)
    ensures j == k
  {
  }

  /** No piece reaches over a position outside. */
  lemma {:induction false} PiecesEndBefore(s: string, i: nat, j: nat, n: nat)
    requires j < i <= |s| && IsOutside(s, i) && IsOutside(s, j) && IsPiece(s, j, n)
    ensures n <= i
    decreases i
  {
    hide IsPiece;
    var p: nat :| p < i && IsOutside(s, p) && IsPiece(s, p, i);
    if j < p {
      PiecesEndBefore(s, p, j, n);
    } else if j == p {
      OnePiece(s, j, n, i);
    } else {
      PiecesEndBefore(s, j, p, i);
    }
  }

  ghost predicate NoCommentBefore(s: string, i: nat)
    requires i <= |s|
  {
    forall k :: 0 <= k < i ==> !CommentStarts(s, k)
  }

  /** The scan at a position outside: a quoted string starts, a comment does, or one character is passed. */
  lemma ScanAt(s: string, i: nat)
    requires i < |s|
    ensures var r := Scan(s[i..], Prev(s, i), None);
            if QuoteStarts(s, i) then r == ShiftBy(1, Scan(s[i + 1..], Prev(s, i + 1), Some(s[i])))
            else if s[i] == '#' && (i == 0 || s[i - 1] == ' ' || s[i - 1] == '\t') then r == Cut(0)
            else r == ShiftBy(1, Scan(s[i + 1..], Prev(s, i + 1), None))
  {
    assert s[i..][0] == s[i] && s[i..][1..] == s[i + 1..];
  }

  /** From a position outside before which there is no comment, the scan cuts at the first one. */
  lemma {:induction false} CutsFrom(s: string, i: nat)
    requires i <= |s| && IsOutside(s, i) && NoCommentBefore(s, i)
    ensures var r := Scan(s[i..], Prev(s, i), None);
            if r.Cut? then i + r.at < |s| && CommentStarts(s, i + r.at) && NoCommentBefore(s, i + r.at)
            else NoCommentBefore(s, |s|)
    decreases |s| - i
  {
    hide IsOutside, Scan, Prev;
    if i == |s| {
      ScanNothing(s[i..], Prev(s, i));
    } else {
      ScanAt(s, i);
      if QuoteStarts(s, i) {
        var j := QuotedEnds(s, i, i + 1);
        ScanOverQuoted(s, i, i + 1, j);
        OutsideBehind(s, i, j);
        NothingInPiece(s, i, j);
        CutsFrom(s, j);
      } else if !CommentStarts(s, i) {
        OutsideBehind(s, i, i + 1);
        CutsFrom(s, i + 1);
      }
    }
  }

  lemma ScanNothing(s: string, prev: char)
    requires s == ""
    ensures Scan(s, prev, None) == Through(None)
  {
  }

  lemma OutsideBehind(s: string, i: nat, j: nat)
    requires i < j <= |s| && IsOutside(s, i) && IsPiece(s, i, j)
    ensures IsOutside(s, j)
  {
    hide IsPiece;
  }

  lemma NothingInPiece(s: string, i: nat, j: nat)
    requires i < j <= |s| && IsOutside(s, i) && IsPiece(s, i, j) && QuoteStarts(s, i) && NoCommentBefore(s, i)
    ensures NoCommentBefore(s, j)
  {
    hide IsOutside, IsPiece;
    forall k | i < k < j ensures !CommentStarts(s, k) {
      if IsOutside(s, k) {
        PiecesEndBefore(s, k, i, j);
      }
    }
  }

  /** A line without its comment: the text before the first `#` that starts one, all of it if none does, without blanks
      at the end. */
  lemma CommentsAreCut(s: string)
    ensures var r := Scan(s, ' ', None);
            && (forall k: nat :: r == Cut(k) <==> k < |s| && CommentStarts(s, k) && NoCommentBefore(s, k))
            && (r.Through? <==> NoCommentBefore(s, |s|))
            && StripComment(s) == RStrip(if r.Cut? then s[..r.at] else s)
  {
    hide RStrip, Scan;
    assert s[0..] == s && IsOutside(s, 0);
    CutsFrom(s, 0);
  }
}
