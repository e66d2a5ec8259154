/**
 Character-level operations of the YAML reader: stripping, indentation, comment removal,
 key splitting and the tag check of `yamlish.py`.
 */
module YamlText {
  import opened Wrappers

  predicate IsBlank(c: char) {
    c == ' ' || c == '\t'
  }

  function Spaces(n: nat): (s: string)
    ensures |s| == n && forall k :: 0 <= k < n ==> s[k] == ' '
  {
    seq(n, _ => ' ')
  }

  predicate StartsWith(s: string, p: string) {
    p <= s
  }

  function LStrip(s: string): (r: string)
    ensures |r| <= |s| && r == s[|s| - |r|..]
    ensures r != "" ==> !IsBlank(r[0])
    ensures forall k :: 0 <= k < |s| - |r| ==> IsBlank(s[k])
  {
    if s != "" && IsBlank(s[0]) then LStrip(s[1..]) else s
  }

  function RStrip(s: string): (r: string)
    ensures r <= s
    ensures r != "" ==> !IsBlank(r[|r| - 1])
    ensures forall k :: |r| <= k < |s| ==> IsBlank(s[k])
  {
    if s != "" && IsBlank(s[|s| - 1]) then RStrip(s[..|s| - 1]) else s
  }

  /** A `$` in a regular expression also matches before a final line break. */
  function BeforeDollar(s: string): string {
    if s != "" && s[|s| - 1] == '\n' then s[..|s| - 1] else s
  }

  function Strip(s: string): string {
    RStrip(LStrip(s))
  }

  /** The number of leading spaces. */
  function Indent(s: string): (n: nat)
    ensures n <= |s| && (n < |s| ==> s[n] != ' ')
    ensures forall k :: 0 <= k < n ==> s[k] == ' '
  {
    if s != "" && s[0] == ' ' then 1 + Indent(s[1..]) else 0
  }

  predicate Trimmed(c: string) {
    c != "" && !IsBlank(c[0]) && !IsBlank(c[|c| - 1])
  }

  lemma StripTrimmed(c: string)
    requires Trimmed(c)
    ensures LStrip(c) == c && RStrip(c) == c && Strip(c) == c
  {
  }

  lemma {:induction false} StripIndented(k: nat, c: string)
    requires Trimmed(c)
    ensures Indent(Spaces(k) + c) == k
    ensures LStrip(Spaces(k) + c) == c && Strip(Spaces(k) + c) == c
    ensures RStrip(Spaces(k) + c) == Spaces(k) + c
  {
    if k == 0 {
      assert Spaces(k) + c == c;
    } else {
      assert (Spaces(k) + c)[1..] == Spaces(k - 1) + c;
      StripIndented(k - 1, c);
    }
  }

  /** Index of the first `c` at or after `from`, or -1. */
  function Find(s: string, c: char, from: nat): (r: int)
    ensures r == -1 || (from <= r < |s| && s[r] == c)
    ensures forall k :: from <= k < (if r == -1 then |s| else r) ==> s[k] != c
    decreases |s| - from
  {
    if from >= |s| then -1
    else if s[from] == c then from
    else Find(s, c, from + 1)
  }

  // --- comments -------------------------------------------------------------------------------

  /** Where a left-to-right comment scan stops: at a `#`, or through the text with a quote maybe open. */
  datatype Scanned = Cut(at: nat) | Through(quote: Option<char>)

  function Shift(r: Scanned): Scanned {
    match r
    case Cut(k) => Cut(k + 1)
    case Through(q) => Through(q)
  }

  predicate OpensQuote(prev: char) {
    prev == ' ' || prev == '\t' || prev == '[' || prev == '{' || prev == ',' || prev == ':'
  }

  predicate IsQuote(c: char) {
    c == '"' || c == '\''
  }

  /** The comment scan of `s`, entered after the character `prev` with `quote` open. */
  function Scan(s: string, prev: char, quote: Option<char>): (r: Scanned)
    ensures r.Cut? ==> r.at < |s| && s[r.at] == '#'
  {
    if s == "" then Through(quote)
    else
      var ch := s[0];
      if quote.Some? then
        Shift(Scan(s[1..], ch, if ch == quote.value then None else quote))
      else if IsQuote(ch) && OpensQuote(prev) then
        Shift(Scan(s[1..], ch, Some(ch)))
      else if ch == '#' && IsBlank(prev) then
        Cut(0)
      else
        Shift(Scan(s[1..], ch, None))
  }

  /** `_strip_comment`: a line start counts as being after a blank. */
  function StripComment(s: string): string {
    match Scan(s, ' ', None)
    case Cut(k) => RStrip(s[..k])
    case Through(_) => RStrip(s)
  }

  function Last(s: string, prev: char): char {
    if s == "" then prev else s[|s| - 1]
  }

  /** A scan that gets through `p` goes on into `q` from the state it left `p` in. */
  lemma {:induction false} ScanConcat(p: string, q: string, prev: char, quote: Option<char>)
    requires Scan(p, prev, quote).Through?
    ensures Scan(p + q, prev, quote).Through? <==> Scan(q, Last(p, prev), Scan(p, prev, quote).quote).Through?
    ensures Scan(p + q, prev, quote).Through? ==>
              Scan(p + q, prev, quote) == Scan(q, Last(p, prev), Scan(p, prev, quote).quote)
  {
    if p == "" {
      assert p + q == q;
    } else {
      assert (p + q)[1..] == p[1..] + q;
      var ch := p[0];
      var quote' := if quote.Some? then (if ch == quote.value then None else quote)
                    else if IsQuote(ch) && OpensQuote(prev) then Some(ch) else None;
      ScanConcat(p[1..], q, ch, quote');
    }
  }

  /** Text without `#` is never cut. */
  lemma {:induction false} ScanNoHash(s: string, prev: char, quote: Option<char>)
    requires '#' !in s
    ensures Scan(s, prev, quote).Through?
  {
    if s != "" {
      var ch := s[0];
      ScanNoHash(s[1..], ch, if quote.Some? then (if ch == quote.value then None else quote)
                             else if IsQuote(ch) && OpensQuote(prev) then Some(ch) else None);
    }
  }

  /** Text without quotes and `#` leaves the scan where it was. */
  lemma {:induction false} ScanNeutral(s: string, prev: char)
    requires '#' !in s && '"' !in s && '\'' !in s
    ensures Scan(s, prev, None) == Through(None)
  {
    if s != "" {
      ScanNeutral(s[1..], s[0]);
    }
  }

  /** Inside an open quote nothing but that quote matters. */
  lemma {:induction false} ScanQuoted(body: string, prev: char, q: char)
    requires q !in body
    ensures Scan(body, prev, Some(q)) == Through(Some(q))
  {
    if body != "" {
      ScanQuoted(body[1..], body[0], q);
    }
  }

  // --- the tag / anchor check -----------------------------------------------------------------

  function DropDashes(s: string): (r: string)
    ensures |r| <= |s|
  {
    if s != "" && (s[0] == '-' || s[0] == ' ') then DropDashes(s[1..]) else s
  }

  predicate IsTag(c: char) {
    c == '&' || c == '*' || c == '!'
  }

  /** Some blanks (possibly none) and then an anchor, alias or tag indicator. */
  predicate BlanksThenTag(s: string) {
    s != "" && (IsTag(s[0]) || (IsBlank(s[0]) && BlanksThenTag(s[1..])))
  }

  /** `:[ \t]+[&*!]` occurs somewhere in the text. */
  predicate HasTaggedValue(s: string) {
    s != "" && ((s[0] == ':' && |s| > 1 && IsBlank(s[1]) && BlanksThenTag(s[1..])) || HasTaggedValue(s[1..]))
  }

  /** `_check` lets the text pass. */
  predicate CheckOk(s: string) {
    var t := DropDashes(s);
    && !(t != "" && IsTag(t[0]))
    && !StartsWith(t, "<<")
    && !HasTaggedValue(s)
  }

  // --- keys -----------------------------------------------------------------------------------

  function CloseQuote(s: string, q: char, from: nat): (r: int)
    ensures r == -1 || (from <= r < |s| && s[r] == q)
    decreases |s| - from
  {
    var e := Find(s, q, from);
    if e >= 0 && q == '\'' && e + 1 < |s| && s[e + 1] == '\'' then CloseQuote(s, q, e + 2) else e
  }

  /** The first `:` at or after `p` that ends a plain key, or -1 when a `#` or the end comes first. */
  function KeyColon(s: string, p: nat): (r: int)
    ensures r == -1 || (p <= r < |s| && s[r] == ':')
    decreases |s| - p
  {
    if p >= |s| then -1
    else if s[p] == ':' && (p + 1 == |s| || IsBlank(s[p + 1])) then p
    else if s[p] == '#' then -1
    else KeyColon(s, p + 1)
  }

  datatype Entry = Entry(key: string, rest: string)

  predicate NeverStartsKey(c: char) {
    c == '[' || c == ']' || c == '{' || c == '}' || c == ',' || c == '#'
  }

  /** `_split_key`: the key text (quotes kept) and the text after the colon, or None for no mapping entry. */
  function SplitKey(s: string): Option<Entry> {
    if s == "" then None
    else if IsQuote(s[0]) then
      var e := CloseQuote(s, s[0], 1);
      if e >= 0 && e + 1 < |s| && s[e + 1] == ':' && (e + 2 == |s| || s[e + 2] == ' ')
      then Some(Entry(s[..e + 1], Strip(s[e + 2..])))
      else None
    else if IsBlank(s[0]) || NeverStartsKey(s[0]) then None
    else
      var p := KeyColon(s, 1);
      if p < 0 then None
      else
        var key := RStrip(s[..p]);
        if StartsWith(key, "- ") then None else Some(Entry(key, Strip(s[p + 1..])))
  }

  predicate IsDash(content: string) {
    content == "-" || StartsWith(content, "- ")
  }
}
