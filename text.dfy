/** ASCII models of the Python text operations that connect and the address decoder rely on: str.strip, str.lower,
    str.split with a separator, str.index, and bytes.fromhex with its inverse bytes.hex. */
module Text {
  import opened Wrappers

  newtype byte = x: int | 0 <= x < 256

  /** str.isspace on ASCII: tab, line feed, vertical tab, form feed, carriage return,
      the four information separators 0x1C-0x1F, and space. */
  predicate IsSpace(c: char) {
    c == ' ' || ('\t' <= c <= '\r') || ('\U{1C}' <= c <= '\U{1F}')
  }

  /** str.lstrip(): drops the leading whitespace and nothing else. */
  function TrimStart(s: string): string {
    if |s| > 0 && IsSpace(s[0]) then TrimStart(s[1..]) else s
  }

  /** str.rstrip(): drops the trailing whitespace and nothing else. */
  function TrimEnd(s: string): string {
    if |s| > 0 && IsSpace(s[|s| - 1]) then TrimEnd(s[..|s| - 1]) else s
  }

  /** str.strip() */
  function Strip(s: string): string {
    TrimEnd(TrimStart(s))
  }

  /** str.lower() on ASCII: only 'A'..'Z' change. */
  function LowerChar(c: char): char {
    if 'A' <= c <= 'Z' then (c as int - 'A' as int + 'a' as int) as char else c
  }

  function Lower(s: string): string {
    if s == [] then [] else [LowerChar(s[0])] + Lower(s[1..])
  }

  predicate IsLowerCase(s: string) {
    Lower(s) == s
  }

  /** The inverse of Split: the pieces with one separator between neighbours. */
  function Join(parts: seq<string>, sep: char): string {
    if parts == [] then []
    else if |parts| == 1 then parts[0]
    else parts[0] + [sep] + Join(parts[1..], sep)
  }

  /** s.split(sep): the pieces between separators, empty pieces included; never an empty list. */
  function Split(s: string, sep: char): (parts: seq<string>)
    ensures |parts| >= 1
    ensures forall k :: 0 <= k < |parts| ==> sep !in parts[k]
    ensures Join(parts, sep) == s
  {
    if s == [] then [[]]
    else
      var rest := Split(s[1..], sep);
      if s[0] == sep then
        assert s == [sep] + Join(rest, sep);
        [[]] + rest
      else
        var parts := [[s[0]] + rest[0]] + rest[1..];
        assert parts[1..] == rest[1..];
        parts
  }

  predicate OccursAt(s: string, pat: string, i: int) {
    0 <= i && i + |pat| <= |s| && s[i..i + |pat|] == pat
  }

  /** s.index(pat) / s.find(pat): the lowest position at which pat occurs, if any. */
  function IndexOf(s: string, pat: string): (r: Option<nat>)
    ensures r.Some? ==> OccursAt(s, pat, r.value)
    ensures r.Some? ==> forall j :: 0 <= j < r.value ==> !OccursAt(s, pat, j)
    ensures r.None? ==> forall j :: !OccursAt(s, pat, j)
  {
    IndexFrom(s, pat, 0)
  }

  function IndexFrom(s: string, pat: string, i: nat): (r: Option<nat>)
    ensures r.Some? ==> i <= r.value && OccursAt(s, pat, r.value)
    ensures r.Some? ==> forall j :: i <= j < r.value ==> !OccursAt(s, pat, j)
    ensures r.None? ==> forall j :: i <= j ==> !OccursAt(s, pat, j)
    decreases |s| - i
  {
    if i + |pat| > |s| then None
    else if s[i..i + |pat|] == pat then Some(i)
    else IndexFrom(s, pat, i + 1)
  }

  predicate IsLowerHexDigit(c: char) {
    '0' <= c <= '9' || 'a' <= c <= 'f'
  }

  function HexDigit(n: nat): (c: char)
    requires n < 16
    ensures IsLowerHexDigit(c)
  {
    if n < 10 then (n + '0' as int) as char else (n - 10 + 'a' as int) as char
  }

  /** The value of one hexadecimal digit of either case, as bytes.fromhex reads it. */
  function HexValue(c: char): (r: Option<nat>)
    ensures r.Some? ==> r.value < 16
  {
    if '0' <= c <= '9' then Some(c as int - '0' as int)
    else if 'a' <= c <= 'f' then Some(c as int - 'a' as int + 10)
    else if 'A' <= c <= 'F' then Some(c as int - 'A' as int + 10)
    else None
  }

  /** bytes.hex(): two lower-case digits per byte, high nibble first. */
  function HexEncode(bytes: seq<byte>): (s: string)
    ensures |s| == 2 * |bytes|
    ensures forall k :: 0 <= k < |s| ==> IsLowerHexDigit(s[k])
  {
    if bytes == [] then []
    else [HexDigit(bytes[0] as nat / 16), HexDigit(bytes[0] as nat % 16)] + HexEncode(bytes[1..])
  }

  /** bytes.fromhex on a string without whitespace: pairs of digits of either case. */
  function HexDecode(s: string): (r: Option<seq<byte>>)
    ensures r.Some? ==> |s| == 2 * |r.value|
  {
    if |s| < 2 then (if s == [] then Some([]) else None)
    else
      var hi, lo, rest := HexValue(s[0]), HexValue(s[1]), HexDecode(s[2..]);
      if hi.None? || lo.None? || rest.None? then None
      else Some([(hi.value * 16 + lo.value) as byte] + rest.value)
  }

  lemma Nibbles(hi: nat, lo: nat)
    requires hi < 16 && lo < 16
    ensures (hi * 16 + lo) / 16 == hi && (hi * 16 + lo) % 16 == lo
  {
  }

  lemma HexDigitValue(n: nat)
    requires n < 16
    ensures HexValue(HexDigit(n)) == Some(n)
  {
  }

  lemma HexValueDigit(c: char)
    requires HexValue(c).Some?
    ensures HexDigit(HexValue(c).value) == LowerChar(c)
  {
  }

  lemma {:induction false} HexRoundTrip(bytes: seq<byte>)
    ensures HexDecode(HexEncode(bytes)) == Some(bytes)
  {
    if bytes != [] {
      var b := bytes[0] as nat;
      var s := HexEncode(bytes);
      assert s[2..] == HexEncode(bytes[1..]);
      HexRoundTrip(bytes[1..]);
      HexDigitValue(b / 16);
      HexDigitValue(b % 16);
      assert (b / 16) * 16 + b % 16 == b;
      assert [bytes[0]] + bytes[1..] == bytes;
    }
  }

  /** Decoding is exact: a string that decodes is, up to letter case, the encoding of what it decodes to. */
  lemma {:induction false} HexDecodeCanonical(s: string, bytes: seq<byte>)
    requires HexDecode(s) == Some(bytes)
    ensures HexEncode(bytes) == Lower(s)
  {
    if s != [] {
      var hi, lo := HexValue(s[0]).value, HexValue(s[1]).value;
      var rest := HexDecode(s[2..]).value;
      assert bytes == [(hi * 16 + lo) as byte] + rest;
      HexDecodeCanonical(s[2..], rest);
      Nibbles(hi, lo);
      HexValueDigit(s[0]);
      HexValueDigit(s[1]);
      assert bytes[1..] == rest;
      assert s[1..][1..] == s[2..];
    }
  }

  // ---- facts about the text operations, used by the address decoder's lemmas ----

  lemma {:induction false} LowerAppend(a: string, b: string)
    ensures Lower(a + b) == Lower(a) + Lower(b)
  {
    if a == [] {
      assert a + b == b;
    } else {
      assert (a + b)[1..] == a[1..] + b;
      LowerAppend(a[1..], b);
    }
  }

  lemma {:induction false} LowerLength(s: string)
    ensures |Lower(s)| == |s|
  {
    if s != [] {
      LowerLength(s[1..]);
    }
  }

  /** A string without capital letters is its own lower-case form. */
  lemma {:induction false} LowerFixed(s: string)
    requires forall k :: 0 <= k < |s| ==> !('A' <= s[k] <= 'Z')
    ensures IsLowerCase(s)
  {
    if s != [] {
      LowerFixed(s[1..]);
    }
  }

  lemma {:induction false} LowerIdempotent(s: string)
    ensures Lower(Lower(s)) == Lower(s)
  {
    if s != [] {
      LowerIdempotent(s[1..]);
    }
  }

  lemma {:induction false} LowerHex(bytes: seq<byte>)
    ensures IsLowerCase(HexEncode(bytes))
  {
    if bytes != [] {
      var s := HexEncode(bytes);
      assert s[1..][1..] == HexEncode(bytes[1..]);
      LowerHex(bytes[1..]);
    }
  }

  lemma {:induction false} TrimStartLower(s: string)
    ensures TrimStart(Lower(s)) == Lower(TrimStart(s))
  {
    if |s| > 0 {
      assert Lower(s)[0] == LowerChar(s[0]) && Lower(s)[1..] == Lower(s[1..]);
      assert IsSpace(LowerChar(s[0])) == IsSpace(s[0]);
      TrimStartLower(s[1..]);
    }
  }

  lemma {:induction false} TrimEndLower(s: string)
    ensures TrimEnd(Lower(s)) == Lower(TrimEnd(s))
  {
    if |s| > 0 {
      var init := s[..|s| - 1];
      assert s == init + [s[|s| - 1]];
      LowerAppend(init, [s[|s| - 1]]);
      LowerLength(init);
      assert Lower(s)[..|s| - 1] == Lower(init);
      TrimEndLower(init);
    }
  }

  /** Stripping and lower-casing commute, because no letter is whitespace. */
  lemma StripLower(s: string)
    ensures Strip(Lower(s)) == Lower(Strip(s))
  {
    TrimStartLower(s);
    TrimEndLower(TrimStart(s));
  }

  /** What lstrip removes: a run of whitespace, up to the first other character. */
  lemma {:induction false} TrimStartSpec(s: string)
    ensures |TrimStart(s)| <= |s| && TrimStart(s) == s[|s| - |TrimStart(s)|..]
    ensures forall k :: 0 <= k < |s| - |TrimStart(s)| ==> IsSpace(s[k])
    ensures TrimStart(s) == [] || !IsSpace(TrimStart(s)[0])
  {
    if |s| > 0 && IsSpace(s[0]) {
      TrimStartSpec(s[1..]);
    }
  }

  /** What rstrip removes: a run of whitespace, back to the last other character. */
  lemma {:induction false} TrimEndSpec(s: string)
    ensures |TrimEnd(s)| <= |s| && TrimEnd(s) == s[..|TrimEnd(s)|]
    ensures forall k :: |TrimEnd(s)| <= k < |s| ==> IsSpace(s[k])
    ensures TrimEnd(s) == [] || !IsSpace(TrimEnd(s)[|TrimEnd(s)| - 1])
  {
    if |s| > 0 && IsSpace(s[|s| - 1]) {
      TrimEndSpec(s[..|s| - 1]);
    }
  }

  /** Leading whitespace of a prefix is dropped; a non-blank suffix stops the trimming. */
  lemma {:induction false} TrimStartAppend(p: string, rest: string)
    requires rest != [] && !IsSpace(rest[0])
    ensures TrimStart(p + rest) == TrimStart(p) + rest
  {
    if p != [] {
      assert (p + rest)[1..] == p[1..] + rest;
      TrimStartAppend(p[1..], rest);
    }
  }

  lemma TrimEndUnpadded(s: string)
    requires s != [] && !IsSpace(s[|s| - 1])
    ensures TrimEnd(s) == s
  {
  }

  /** A string that neither begins nor ends with whitespace is its own strip. */
  lemma StripUnpadded(s: string)
    requires s != [] && !IsSpace(s[0]) && !IsSpace(s[|s| - 1])
    ensures Strip(s) == s
  {
    assert TrimStart(s) == s;
  }

  lemma {:induction false} SplitNoSeparator(s: string, sep: char)
    requires sep !in s
    ensures Split(s, sep) == [s]
  {
    if s != [] {
      SplitNoSeparator(s[1..], sep);
    }
  }

  lemma {:induction false} JoinSnoc(parts: seq<string>, x: string, sep: char)
    requires parts != []
    ensures Join(parts + [x], sep) == Join(parts, sep) + [sep] + x
  {
    if |parts| > 1 {
      assert (parts + [x])[1..] == parts[1..] + [x];
      JoinSnoc(parts[1..], x, sep);
    }
  }

  /** Splitting at a separator splits the two sides independently. */
  lemma {:induction false} SplitAround(a: string, sep: char, b: string)
    ensures Split(a + ([sep] + b), sep) == Split(a, sep) + Split(b, sep)
  {
    if a == [] {
      assert a + ([sep] + b) == [sep] + b;
    } else {
      assert (a + ([sep] + b))[1..] == a[1..] + ([sep] + b);
      SplitAround(a[1..], sep, b);
    }
  }
}
