/**
 The emitter `render.yaml`: which scalars and keys go out plain, and the text of a whole value.
 */
module YamlEmitter {
  import opened YamlText
  import opened YamlScalar

  /** Which characters beyond ASCII the regular expressions take for word characters and for digits. */
  datatype Unicode = Unicode(word: char -> bool, digit: char -> bool)

  predicate IsLetter(c: char) {
    'a' <= c <= 'z' || 'A' <= c <= 'Z'
  }

  predicate IsWord(c: char, u: Unicode) {
    IsLetter(c) || IsDigit(c) || c == '_' || (c >= '\U{80}' && u.word(c))
  }

  predicate IsAnyDigit(c: char, u: Unicode) {
    IsDigit(c) || (c >= '\U{80}' && u.digit(c))
  }

  predicate IsKeyBody(s: string, u: Unicode) {
    && s != "" && (IsLetter(s[0]) || s[0] == '_')
    && forall i :: 0 <= i < |s| ==> IsWord(s[i], u) || s[i] == '.' || s[i] == '-'
  }

  predicate IsPlainMark(c: char) {
    c == '.' || c == '/' || c == '@' || c == '%' || c == '+' || c == '-'
  }

  predicate IsPlainChar(c: char, u: Unicode) {
    IsWord(c, u) || IsPlainMark(c) || c == ' ' || c == ':'
  }

  predicate IsPlainBody(s: string, u: Unicode) {
    && s != "" && (IsLetter(s[0]) || IsDigit(s[0]) || s[0] == '_' || IsPlainMark(s[0]))
    && forall i :: 0 <= i < |s| ==> IsPlainChar(s[i], u)
  }

  function LowerChar(c: char): char {
    if 'A' <= c <= 'Z' then (c as int + 32) as char else c
  }

  function Lower(s: string): string {
    seq(|s|, i requires 0 <= i < |s| => LowerChar(s[i]))
  }

  predicate IsReserved(s: string) {
    var l := Lower(s);
    || l == "true" || l == "false" || l == "null" || l == "yes" || l == "no"
    || l == "on" || l == "off" || l == "~" || l == ""
  }

  function DigitRun(s: string, underscores: bool, u: Unicode): (n: nat)
    ensures n <= |s|
  {
    if s != "" && (IsAnyDigit(s[0], u) || (underscores && s[0] == '_')) then 1 + DigitRun(s[1..], underscores, u) else 0
  }

  /** `([eE][-+]?\d+)?` up to the end */
  predicate LooksLikeExponent(s: string, u: Unicode) {
    s == "" || ((s[0] == 'e' || s[0] == 'E') &&
                var t := DropSign(s[1..]); t != "" && DigitRun(t, false, u) == |t|)
  }

  /** `[-+]?(\d[\d_]*)(\.\d+)?([eE][-+]?\d+)?` */
  predicate LooksNumber(s: string, u: Unicode) {
    var t := DropSign(s);
    && t != "" && IsAnyDigit(t[0], u)
    && var rest := t[DigitRun(t, true, u)..];
       LooksLikeExponent(rest, u) ||
       (rest != "" && rest[0] == '.' && DigitRun(rest[1..], false, u) > 0 &&
        LooksLikeExponent(rest[1 + DigitRun(rest[1..], false, u)..], u))
  }

  predicate HasColonSpace(s: string) {
    exists i :: 0 <= i < |s| - 1 && s[i] == ':' && s[i + 1] == ' '
  }

  /** The string goes out without quotes. */
  predicate GoesPlain(s: string, u: Unicode) {
    && IsPlainBody(BeforeDollar(s), u)
    && !IsReserved(s)
    && !LooksNumber(s, u)
    && s[|s| - 1] != ':'
    && !HasColonSpace(s)
  }

  /** `_yscalar` */
  function ScalarText(x: Value, u: Unicode): string
    requires !x.List? && !x.Dict?
  {
    match x
    case Null => "null"
    case Bool(b) => if b then "true" else "false"
    case Int(n) => IntText(n)
    case Float(digits) => digits
    case Str(s) => if GoesPlain(s, u) then s else Quoted(s, false)
  }

  function KeyText(k: string, u: Unicode): string {
    if IsKeyBody(BeforeDollar(k), u) then k else Quoted(k, true)
  }

  /** A non-empty list or dict: what the emitter writes as a block. */
  predicate IsBlock(v: Value) {
    (v.List? && v.items != []) || (v.Dict? && v.entries != [])
  }

  /** What the emitter writes in line: a scalar, `[]` or `{}`. */
  function LeafText(x: Value, u: Unicode): string
    requires !IsBlock(x)
  {
    if x.List? then "[]" else if x.Dict? then "{}" else ScalarText(x, u)
  }

  function KeyOf(k: Value): string {
    if k.Str? then k.s else ""
  }

  function Join(parts: seq<string>): string {
    if parts == [] then "" else if |parts| == 1 then parts[0] else parts[0] + "\n" + Join(parts[1..])
  }

  /** `yaml(v, indent)` */
  function Yaml(v: Value, n: nat, u: Unicode): string
    decreases v, 1
  {
    if v.Dict? && v.entries != [] then Join(EntryTexts(v.entries, n, u))
    else if v.List? && v.items != [] then Join(ItemTexts(v.items, n, u))
    else Spaces(2 * n) + LeafText(v, u)
  }

  function EntryText(e: Pair, n: nat, u: Unicode): string
    decreases e, 2
  {
    var key := Spaces(2 * n) + KeyText(KeyOf(e.key), u);
    if IsBlock(e.value) then key + ":\n" + Yaml(e.value, n + 1, u) else key + ": " + LeafText(e.value, u)
  }

  function ItemText(x: Value, n: nat, u: Unicode): string
    decreases x, 2
  {
    Spaces(2 * n) + "- " + (if IsBlock(x) then LStrip(Yaml(x, n + 1, u)) else LeafText(x, u))
  }

  function EntryTexts(entries: seq<Pair>, n: nat, u: Unicode): seq<string>
    decreases entries, 0
  {
    if entries == [] then [] else [EntryText(entries[0], n, u)] + EntryTexts(entries[1..], n, u)
  }

  function ItemTexts(items: seq<Value>, n: nat, u: Unicode): seq<string>
    decreases items, 0
  {
    if items == [] then [] else [ItemText(items[0], n, u)] + ItemTexts(items[1..], n, u)
  }

  /** The emitter as the program runs it: a recursive call per nested value, one text appended per element. */
  method Emit(v: Value, n: nat, u: Unicode) returns (text: string)
    ensures text == Yaml(v, n, u)
    decreases v, 1
  {
    if v.Dict? && v.entries != [] {
      var out := EmitEntries(v.entries, n, u);
      text := Join(out);
    } else if v.List? && v.items != [] {
      var out := EmitItems(v.items, n, u);
      text := Join(out);
    } else {
      text := Spaces(2 * n) + LeafText(v, u);
    }
  }

  method EmitEntries(entries: seq<Pair>, n: nat, u: Unicode) returns (out: seq<string>)
    ensures out == EntryTexts(entries, n, u)
    decreases entries, 0
  {
    hide Yaml, EntryText, EntryTexts, IsBlock, KeyText;
    out := [];
    assert entries[0..] == entries;
    for i := 0 to |entries|
      invariant out + EntryTexts(entries[i..], n, u) == EntryTexts(entries, n, u)
    {
      var line := EmitEntry(entries[i], n, u);
      NextEntry(entries, i, n, u);
      out := out + [line];
    }
    NoMoreTexts(n, u);
    assert entries[|entries|..] == [];
  }

  lemma NextEntry(entries: seq<Pair>, i: nat, n: nat, u: Unicode)
    requires i < |entries|
    ensures EntryTexts(entries[i..], n, u) == [EntryText(entries[i], n, u)] + EntryTexts(entries[i + 1..], n, u)
  {
    hide Yaml, EntryText, IsBlock, KeyText;
    assert entries[i..][0] == entries[i] && entries[i..][1..] == entries[i + 1..];
  }

  lemma NoMoreTexts(n: nat, u: Unicode)
    ensures EntryTexts([], n, u) == [] && ItemTexts([], n, u) == []
  {
  }

  lemma NextItem(items: seq<Value>, i: nat, n: nat, u: Unicode)
    requires i < |items|
    ensures ItemTexts(items[i..], n, u) == [ItemText(items[i], n, u)] + ItemTexts(items[i + 1..], n, u)
  {
    hide Yaml, ItemText, IsBlock;
    assert items[i..][0] == items[i] && items[i..][1..] == items[i + 1..];
  }

  method EmitItems(items: seq<Value>, n: nat, u: Unicode) returns (out: seq<string>)
    ensures out == ItemTexts(items, n, u)
    decreases items, 0
  {
    hide Yaml, ItemText, ItemTexts, IsBlock;
    out := [];
    assert items[0..] == items;
    for i := 0 to |items|
      invariant out + ItemTexts(items[i..], n, u) == ItemTexts(items, n, u)
    {
      var line := EmitItem(items[i], n, u);
      NextItem(items, i, n, u);
      out := out + [line];
    }
    NoMoreTexts(n, u);
    assert items[|items|..] == [];
  }

  method EmitEntry(e: Pair, n: nat, u: Unicode) returns (line: string)
    ensures line == EntryText(e, n, u)
    decreases e, 2
  {
    line := Spaces(2 * n) + KeyText(KeyOf(e.key), u);
    if IsBlock(e.value) {
      var nested := Emit(e.value, n + 1, u);
      line := line + ":\n" + nested;
    } else {
      line := line + ": " + LeafText(e.value, u);
    }
  }

  method EmitItem(x: Value, n: nat, u: Unicode) returns (line: string)
    ensures line == ItemText(x, n, u)
    decreases x, 2
  {
    if IsBlock(x) {
      var nested := Emit(x, n + 1, u);
      line := Spaces(2 * n) + "- " + LStrip(nested);
    } else {
      line := Spaces(2 * n) + "- " + LeafText(x, u);
    }
  }
}
