/**
 * Reading a key combination such as "ctrl+shift+f1" from the settings file:
 * split on '+', strip and lower-case each part, map each known part to its key
 * and skip every other part.
 */
module KeyParsing {
  import opened Wrappers
  import opened Keys

  /** The characters Python's str.strip() removes (str.isspace). */
  predicate IsSpace(c: char) {
    || c == ' ' || c == '\t' || c == '\n' || c == '\r' || c == '\U{B}' || c == '\U{C}'
    || ('\U{1C}' <= c <= '\U{1F}')
    || c == '\U{85}' || c == '\U{A0}' || c == '\U{1680}'
    || ('\U{2000}' <= c <= '\U{200A}')
    || c == '\U{2028}' || c == '\U{2029}' || c == '\U{202F}' || c == '\U{205F}' || c == '\U{3000}'
  }

  predicate IsUpper(c: char) { 'A' <= c <= 'Z' }

  predicate IsLower(c: char) { 'a' <= c <= 'z' }

  predicate IsAlpha(c: char) { IsUpper(c) || IsLower(c) }

  predicate IsDigit(c: char) { '0' <= c <= '9' }

  predicate AllDigits(s: string) {
    forall i :: 0 <= i < |s| ==> IsDigit(s[i])
  }

  /** Number of occurrences of `sep` in `s`. */
  function Count(s: string, sep: char): nat {
    if s == [] then 0 else (if s[0] == sep then 1 else 0) + Count(s[1..], sep)
  }

  /** str.split(sep): the pieces between separators, empty pieces included. */
  function Split(s: string, sep: char): (parts: seq<string>)
    ensures |parts| == Count(s, sep) + 1
    ensures forall i :: 0 <= i < |parts| ==> sep !in parts[i]
  {
    if s == [] then [""]
    else
      var rest := Split(s[1..], sep);
      if s[0] == sep then [""] + rest
      else [[s[0]] + rest[0]] + rest[1..]
  }

  /** sep.join(parts) */
  function Join(parts: seq<string>, sep: char): string
    requires |parts| >= 1
  {
    if |parts| == 1 then parts[0] else parts[0] + [sep] + Join(parts[1..], sep)
  }

  /** Joining the pieces of a split gives back the string. */
  lemma {:induction false} JoinSplit(s: string, sep: char)
    ensures Join(Split(s, sep), sep) == s
  {
    if s != [] {
      JoinSplit(s[1..], sep);
      var rest := Split(s[1..], sep);
      if s[0] != sep && |rest| > 1 {
        assert Split(s, sep)[1..] == rest[1..];
      }
    }
  }

  lemma {:induction false} SplitPrefix(p: string, r: string, sep: char)
    requires sep !in p
    ensures Split(p + r, sep) == [p + Split(r, sep)[0]] + Split(r, sep)[1..]
  {
    var tail := Split(r, sep);
    if p == [] {
      assert p + r == r && p + tail[0] == tail[0];
      assert tail == [tail[0]] + tail[1..];
    } else {
      assert (p + r)[0] == p[0] && (p + r)[1..] == p[1..] + r;
      SplitPrefix(p[1..], r, sep);
      assert [p[0]] + (p[1..] + tail[0]) == p + tail[0];
    }
  }

  /** Splitting a join of separator-free pieces gives back the pieces. */
  lemma {:induction false} SplitJoin(parts: seq<string>, sep: char)
    requires |parts| >= 1
    requires forall i :: 0 <= i < |parts| ==> sep !in parts[i]
    ensures Split(Join(parts, sep), sep) == parts
  {
    if |parts| == 1 {
      SplitPrefix(parts[0], [], sep);
      assert parts[0] + [] == parts[0];
    } else {
      SplitJoin(parts[1..], sep);
      var tail := Join(parts[1..], sep);
      assert parts[0] + [sep] + tail == parts[0] + ([sep] + tail);
      SplitPrefix(parts[0], [sep] + tail, sep);
      assert ([sep] + tail)[0] == sep && ([sep] + tail)[1..] == tail;
      assert Split([sep] + tail, sep) == [""] + parts[1..];
      assert parts[0] + "" == parts[0];
      assert parts == [parts[0]] + parts[1..];
    }
  }

  /** str.lstrip(): drops the leading whitespace and nothing else. */
  function TrimStart(s: string): (r: string)
    ensures r == [] || !IsSpace(r[0])
    ensures |r| <= |s| && r == s[|s| - |r|..]
    ensures forall i :: 0 <= i < |s| - |r| ==> IsSpace(s[i])
  {
    if s != [] && IsSpace(s[0]) then TrimStart(s[1..]) else s
  }

  /** str.rstrip(): drops the trailing whitespace and nothing else. */
  function TrimEnd(s: string): (r: string)
    ensures r == [] || !IsSpace(r[|r| - 1])
    ensures |r| <= |s| && r == s[..|r|]
    ensures forall i :: |r| <= i < |s| ==> IsSpace(s[i])
  {
    if s != [] && IsSpace(s[|s| - 1]) then TrimEnd(s[..|s| - 1]) else s
  }

  /** str.strip(): both ends trimmed of whitespace. */
  function Strip(s: string): (r: string)
    ensures r == [] || (!IsSpace(r[0]) && !IsSpace(r[|r| - 1]))
  {
    TrimEnd(TrimStart(s))
  }

  /** Leading whitespace in front of a part that starts with a non-space is exactly what lstrip removes. */
  lemma {:induction false} TrimStartPadded(pre: string, x: string)
    requires forall i :: 0 <= i < |pre| ==> IsSpace(pre[i])
    requires x == [] || !IsSpace(x[0])
    ensures TrimStart(pre + x) == x
  {
    if pre == [] {
      assert pre + x == x;
    } else {
      assert (pre + x)[0] == pre[0] && (pre + x)[1..] == pre[1..] + x;
      TrimStartPadded(pre[1..], x);
    }
  }

  /** Trailing whitespace after a part that ends with a non-space is exactly what rstrip removes. */
  lemma {:induction false} TrimEndPadded(x: string, post: string)
    requires forall i :: 0 <= i < |post| ==> IsSpace(post[i])
    requires x == [] || !IsSpace(x[|x| - 1])
    ensures TrimEnd(x + post) == x
    decreases |post|
  {
    if post == [] {
      assert x + post == x;
    } else {
      var s := x + post;
      assert s[|s| - 1] == post[|post| - 1];
      assert s[..|s| - 1] == x + post[..|post| - 1];
      TrimEndPadded(x, post[..|post| - 1]);
    }
  }

  /** A core with non-space ends between whitespace padding is exactly what strip keeps. */
  lemma StripPadded(pre: string, core: string, post: string)
    requires forall i :: 0 <= i < |pre| ==> IsSpace(pre[i])
    requires forall i :: 0 <= i < |post| ==> IsSpace(post[i])
    requires core != [] && !IsSpace(core[0]) && !IsSpace(core[|core| - 1])
    ensures Strip(pre + core + post) == core
  {
    assert pre + core + post == pre + (core + post);
    TrimStartPadded(pre, core + post);
    TrimEndPadded(core, post);
  }

  /** str.lower() on one character: an ASCII capital becomes its small letter, anything else is kept. */
  function LowerChar(c: char): (r: char)
    ensures !IsUpper(r)
    ensures IsAlpha(c) <==> IsLower(r)
    ensures !IsUpper(c) ==> r == c
    ensures IsUpper(c) ==> r as int - 'a' as int == c as int - 'A' as int
    ensures IsSpace(r) <==> IsSpace(c)
  {
    if IsUpper(c) then (c as int + 32) as char else c
  }

  /** str.lower() on the ASCII letters. */
  function Lower(s: string): (r: string)
    ensures |r| == |s|
    ensures forall i :: 0 <= i < |s| ==> r[i] == LowerChar(s[i])
  {
    if s == [] then [] else [LowerChar(s[0])] + Lower(s[1..])
  }

  /** The value of a string of decimal digits (leading zeros allowed). */
  function DigitsValue(s: string): (v: nat)
    requires AllDigits(s)
    ensures v == 0 <==> forall i :: 0 <= i < |s| ==> s[i] == '0'
  {
    if s == [] then 0
    else DigitsValue(s[..|s| - 1]) * 10 + (s[|s| - 1] as int - '0' as int)
  }

  /** One normalised part to its key, or None for a part that is skipped. */
  function ParsePart(p: string): (r: Option<Key>)
    ensures r.Some? ==> Named(r.value) && Spells(p, r.value)
  {
    if p == "ctrl" then Some(Ctrl)
    else if p == "shift" then Some(Shift)
    else if p == "alt" then Some(Alt)
    else if p == "space" then Some(Space)
    else if p == "tab" then Some(Tab)
    else if p == "enter" then Some(Enter)
    else if |p| > 1 && p[0] == 'f' && AllDigits(p[1..]) then
      var n := DigitsValue(p[1..]);
      if 1 <= n <= 12 then Some(Function(n)) else None
    else if |p| == 1 && IsAlpha(p[0]) then Some(Char(p[0]))
    else None
  }

  /** The keys a combination string can name. */
  predicate Named(k: Key) {
    match k
    case Function(n) => 1 <= n <= 12
    case Char(c) => IsAlpha(c)
    case Other(_) => false
    case _ => true
  }

  /**
   * `p` is a spelling of `k`: its fixed name, 'f' and decimal digits worth the
   * function key's number (leading zeros allowed), or the letter itself.
   */
  predicate Spells(p: string, k: Key) {
    match k
    case Ctrl => p == "ctrl"
    case Shift => p == "shift"
    case Alt => p == "alt"
    case Space => p == "space"
    case Tab => p == "tab"
    case Enter => p == "enter"
    case Function(n) => |p| > 1 && p[0] == 'f' && AllDigits(p[1..]) && DigitsValue(p[1..]) == n
    case Char(c) => p == [c]
    case Other(_) => false
  }

  /** A normalised part gives exactly the named key it spells, and nothing when it spells none. */
  lemma ParsePartExact(p: string, k: Key)
    ensures ParsePart(p) == Some(k) <==> Named(k) && Spells(p, k)
  {
    if Named(k) && Spells(p, k) {
      if k.Function? || k.Char? {
        assert p != "ctrl" && p != "shift" && p != "alt" by {
          assert "ctrl"[0] == 'c' && "shift"[0] == 's' && "alt"[0] == 'a';
        }
        assert p != "space" && p != "tab" && p != "enter" by {
          assert "space"[0] == 's' && "tab"[0] == 't' && "enter"[0] == 'e';
        }
      }
    }
  }

  /** `f0`, `f13` and every other function-key spelling outside 1 to 12 is dropped. */
  lemma OutOfRangeFunctionKeyDropped(p: string)
    requires |p| > 1 && p[0] == 'f' && AllDigits(p[1..])
    requires !(1 <= DigitsValue(p[1..]) <= 12)
    ensures ParsePart(p) == None
  {
    assert p != "ctrl" && p != "shift" && p != "alt" by {
      assert "ctrl"[0] == 'c' && "shift"[0] == 's' && "alt"[0] == 'a';
    }
    assert p != "space" && p != "tab" && p != "enter" by {
      assert "space"[0] == 's' && "tab"[0] == 't' && "enter"[0] == 'e';
    }
  }

  /** Named keys whose letter, if any, is lower case: what parsing produces. */
  predicate Parseable(k: Key) {
    Named(k) && (k.Char? ==> IsLower(k.c))
  }

  /** part.strip().lower() */
  function Normalize(part: string): (r: string)
    ensures |r| <= |part|
    ensures r == [] || (!IsSpace(r[0]) && !IsSpace(r[|r| - 1]))
    ensures forall i :: 0 <= i < |r| ==> !IsUpper(r[i])
  {
    var stripped := Strip(part);
    var r := Lower(stripped);
    assert r == [] || (r[0] == LowerChar(stripped[0]) && r[|r| - 1] == LowerChar(stripped[|r| - 1]));
    r
  }

  /** The key one raw part names: none for a part that is skipped. */
  function PartKeys(part: string): (keys: seq<Key>)
    ensures |keys| <= 1
    ensures |keys| == 1 <==> ParsePart(Normalize(part)).Some?
    ensures forall i :: 0 <= i < |keys| ==> Parseable(keys[i])
  {
    var p := Normalize(part);
    match ParsePart(p)
    case None => []
    case Some(k) =>
      assert k.Char? ==> IsLower(k.c) by {
        if k.Char? {
          assert |p| == 1 && p[0] == LowerChar(Strip(part)[0]);
        }
      }
      [k]
  }

  /** The known parts, mapped to their keys, in order. */
  function ParseParts(parts: seq<string>): (keys: seq<Key>)
    ensures |keys| <= |parts|
    ensures forall i :: 0 <= i < |keys| ==> Parseable(keys[i])
  {
    if parts == [] then [] else PartKeys(parts[0]) + ParseParts(parts[1..])
  }

  /** parse_key_combination */
  function ParseKeyCombination(s: string): (keys: seq<Key>)
    ensures |keys| <= Count(s, '+') + 1
    ensures forall i :: 0 <= i < |keys| ==> Parseable(keys[i])
  {
    ParseParts(Split(s, '+'))
  }

  /** Parts are read independently of each other and in order. */
  lemma {:induction false} ParsePartsAppend(a: seq<string>, b: seq<string>)
    ensures ParseParts(a + b) == ParseParts(a) + ParseParts(b)
  {
    if a == [] {
      assert a + b == b;
    } else {
      assert (a + b)[0] == a[0] && (a + b)[1..] == a[1..] + b;
      ParsePartsAppend(a[1..], b);
      assert PartKeys(a[0]) + (ParseParts(a[1..]) + ParseParts(b))
          == (PartKeys(a[0]) + ParseParts(a[1..])) + ParseParts(b);
    }
  }

  /** A part that is not a known key name contributes nothing. */
  lemma UnknownPartSkipped(a: seq<string>, part: string, b: seq<string>)
    requires ParsePart(Normalize(part)).None?
    ensures ParseParts(a + [part] + b) == ParseParts(a) + ParseParts(b)
  {
    assert PartKeys(part) == [];
    var single := [part];
    assert ParseParts(single) == [] by {
      assert single[0] == part && single[1..] == [];
      assert ParseParts(single) == PartKeys(part) + ParseParts([]);
    }
    ParsePartsAppend(a, single);
    ParsePartsAppend(a + single, b);
    assert ParseParts(a + single) == ParseParts(a);
  }

  // ----- The inverse: a canonical spelling of each parseable key -----

  function DigitChar(d: nat): (c: char)
    requires d < 10
    ensures IsDigit(c) && c as int - '0' as int == d
  {
    ('0' as int + d) as char
  }

  /** The decimal spelling of n, without leading zeros. */
  function NatToString(n: nat): (s: string)
    ensures |s| >= 1 && AllDigits(s)
    ensures DigitsValue(s) == n
    decreases n
  {
    if n < 10 then [DigitChar(n)]
    else
      var prefix := NatToString(n / 10);
      var s := prefix + [DigitChar(n % 10)];
      assert s[..|s| - 1] == prefix;
      s
  }

  function KeyName(k: Key): (name: string)
    requires Parseable(k)
    ensures |name| >= 1 && '+' !in name
  {
    match k
    case Ctrl => "ctrl"
    case Shift => "shift"
    case Alt => "alt"
    case Space => "space"
    case Tab => "tab"
    case Enter => "enter"
    case Function(n) => "f" + NatToString(n)
    case Char(c) => [c]
  }

  function KeyNames(keys: seq<Key>): (names: seq<string>)
    requires forall i :: 0 <= i < |keys| ==> Parseable(keys[i])
    ensures |names| == |keys|
    ensures forall i :: 0 <= i < |keys| ==> names[i] == KeyName(keys[i])
  {
    if keys == [] then [] else [KeyName(keys[0])] + KeyNames(keys[1..])
  }

  /** The combination string that names `keys`, e.g. "ctrl+alt+r". */
  function Format(keys: seq<Key>): string
    requires forall i :: 0 <= i < |keys| ==> Parseable(keys[i])
  {
    if keys == [] then "" else Join(KeyNames(keys), '+')
  }

  /** Lower-case letters and digits only. */
  predicate Plain(s: string) {
    forall i :: 0 <= i < |s| ==> IsLower(s[i]) || IsDigit(s[i])
  }

  lemma PlainIsNormal(s: string)
    requires Plain(s)
    ensures Normalize(s) == s
  {
    assert s == [] || (!IsSpace(s[0]) && !IsSpace(s[|s| - 1]));
    assert TrimStart(s) == s;
    assert TrimEnd(s) == s;
    assert forall i :: 0 <= i < |s| ==> LowerChar(s[i]) == s[i];
  }

  /** Canonical names are spelled in lower-case letters and digits. */
  lemma KeyNamePlain(k: Key)
    requires Parseable(k)
    ensures Plain(KeyName(k))
  {
    var name := KeyName(k);
    if k.Function? {
      forall i | 0 <= i < |name| ensures IsLower(name[i]) || IsDigit(name[i]) {
        if i > 0 {
          assert name[i] == NatToString(k.n)[i - 1];
        }
      }
    }
  }

  lemma KeyNameNormal(k: Key)
    requires Parseable(k)
    ensures Normalize(KeyName(k)) == KeyName(k)
  {
    KeyNamePlain(k);
    PlainIsNormal(KeyName(k));
  }

  lemma KeyNameParses(k: Key)
    requires Parseable(k)
    ensures ParsePart(Normalize(KeyName(k))) == Some(k)
  {
    KeyNameNormal(k);
    var name := KeyName(k);
    assert Spells(name, k) by {
      if k.Function? {
        assert name[0] == 'f' && name[1..] == NatToString(k.n);
      }
    }
    ParsePartExact(name, k);
  }

  /**
   * A part padded with whitespace and written in any mix of cases reads as the
   * key its lower-case form names: " CTRL " reads as ctrl, "F1 " as F1.
   */
  lemma PaddedNameParses(pre: string, name: string, post: string, k: Key)
    requires Parseable(k)
    requires forall i :: 0 <= i < |pre| ==> IsSpace(pre[i])
    requires forall i :: 0 <= i < |post| ==> IsSpace(post[i])
    requires Lower(name) == KeyName(k)
    ensures PartKeys(pre + name + post) == [k]
  {
    var canonical := KeyName(k);
    KeyNamePlain(k);
    assert |name| == |canonical| >= 1;
    NotSpaceIfPlain(name[0], canonical[0]);
    NotSpaceIfPlain(name[|name| - 1], canonical[|canonical| - 1]);
    var part := pre + name + post;
    StripPadded(pre, name, post);
    assert Normalize(part) == canonical;
    KeyNameNormal(k);
    KeyNameParses(k);
    assert ParsePart(Normalize(part)) == Some(k);
  }

  lemma NotSpaceIfPlain(c: char, lowered: char)
    requires LowerChar(c) == lowered && (IsLower(lowered) || IsDigit(lowered))
    ensures !IsSpace(c)
  {
  }

  lemma ParseKeyNames(keys: seq<Key>)
    requires forall i :: 0 <= i < |keys| ==> Parseable(keys[i])
    ensures ParseParts(KeyNames(keys)) == keys
  {
    var names := KeyNames(keys);
    forall i | 0 <= i < |keys|
      ensures PartKeys(names[i]) == [keys[i]]
    {
      KeyNamePartKeys(keys[i]);
    }
    ParsePartwise(names, keys);
  }

  /** Parts that each yield exactly one key yield those keys, in order. */
  lemma {:induction false} ParsePartwise(parts: seq<string>, keys: seq<Key>)
    requires |parts| == |keys|
    requires forall i :: 0 <= i < |parts| ==> PartKeys(parts[i]) == [keys[i]]
    ensures ParseParts(parts) == keys
  {
    if parts != [] {
      ParsePartwise(parts[1..], keys[1..]);
      assert [keys[0]] + keys[1..] == keys;
    }
  }

  /** The canonical name of a parseable key, read as one part, yields exactly that key. */
  lemma KeyNamePartKeys(k: Key)
    requires Parseable(k)
    ensures PartKeys(KeyName(k)) == [k]
  {
    KeyNameParses(k);
  }

  /** Parsing the spelling of any sequence of parseable keys gives back that sequence, in order. */
  lemma FormatParses(keys: seq<Key>)
    requires forall i :: 0 <= i < |keys| ==> Parseable(keys[i])
    ensures ParseKeyCombination(Format(keys)) == keys
  {
    if keys == [] {
      assert Split("", '+') == [""];
      assert ParseParts([""]) == [] by {
        assert [""][1..] == [];
        assert Normalize("") == "";
      }
    } else {
      SplitJoin(KeyNames(keys), '+');
      ParseKeyNames(keys);
    }
  }
}
