/** Shortening the address at the head of a qualified function name (src/utils.rs, `trim_hex_address`). */
module HexNames {
  import opened Prelude

  // ---------- Splitting at the first "::" ----------

  predicate SeparatorAt(s: string, i: int) {
    0 <= i < |s| - 1 && s[i] == ':' && s[i + 1] == ':'
  }

  function SplitFrom(s: string, i: nat): Option<(string, string)>
    requires i <= |s|
    decreases |s| - i
  {
    if SeparatorAt(s, i) then Some((s[..i], s[i + 2..]))
    else if i == |s| then None
    else SplitFrom(s, i + 1)
  }

  function SplitOnce(s: string): Option<(string, string)> { SplitFrom(s, 0) }

  lemma {:induction false} SplitFindsFirst(s: string, i: nat, k: nat)
    requires i <= k <= |s| && SeparatorAt(s, k)
    requires forall j :: i <= j < k ==> !SeparatorAt(s, j)
    ensures SplitFrom(s, i) == Some((s[..k], s[k + 2..]))
    decreases k - i
  {
    if i < k { SplitFindsFirst(s, i + 1, k); }
  }

  /** The cut is at a separator, and none stands further left. */
  lemma {:induction false} SplitSound(s: string, i: nat)
    requires i <= |s|
    ensures match SplitFrom(s, i)
            case None => forall j :: i <= j ==> !SeparatorAt(s, j)
            case Some((first, rest)) =>
              s == first + "::" + rest && i <= |first| && forall j :: i <= j < |first| ==> !SeparatorAt(s, j)
    decreases |s| - i
  {
    if SeparatorAt(s, i) {
      assert s == s[..i] + "::" + s[i + 2..];
    } else if i < |s| {
      SplitSound(s, i + 1);
    }
  }

  /** A head without ':' is cut off in one piece. */
  lemma SplitOfHead(first: string, rest: string)
    requires ':' !in first
    ensures SplitOnce(first + "::" + rest) == Some((first, rest))
  {
    var s := first + "::" + rest;
    SplitFindsFirst(s, 0, |first|);
    assert s[..|first|] == first && s[|first| + 2..] == rest;
  }

  // ---------- Hexadecimal heads ----------

  predicate IsHexDigit(c: char) {
    '0' <= c <= '9' || 'a' <= c <= 'f' || 'A' <= c <= 'F'
  }

  function HexDigit(c: char): nat
    requires IsHexDigit(c)
  {
    if c <= '9' then (c - '0') as nat
    else if c <= 'F' then (c - 'A') as nat + 10
    else (c - 'a') as nat + 10
  }

  predicate HexDigits(s: string) { forall i :: 0 <= i < |s| ==> IsHexDigit(s[i]) }

  function HexValue(s: string): nat
    requires HexDigits(s)
  {
    if s == "" then 0 else 16 * HexValue(s[..|s| - 1]) + HexDigit(s[|s| - 1])
  }

  predicate Prefixed(first: string) { |first| >= 2 && first[..2] == "0x" }

  function HexPart(first: string): string { if Prefixed(first) then first[2..] else first }

  function DropZeros(s: string): string {
    if s != "" && s[0] == '0' then DropZeros(s[1..]) else s
  }

  /** The digits that remain: never empty, "0" for zero. */
  function Significant(hex: string): string {
    var trimmed := DropZeros(hex);
    if trimmed == "" then "0" else trimmed
  }

  /** The name splits at a "::" behind a non-empty hexadecimal head. */
  predicate HexHeaded(name: string) {
    SplitOnce(name).Some? &&
    HexPart(SplitOnce(name).value.0) != "" &&
    HexDigits(HexPart(SplitOnce(name).value.0))
  }

  function TrimHexAddress(name: string): string {
    match SplitOnce(name)
    case None => name
    case Some((first, rest)) =>
      var hex := HexPart(first);
      if hex == "" || !HexDigits(hex) then name
      else (if Prefixed(first) then "0x" else "00") + Significant(hex) + "::" + rest
  }

  // ---------- What trimming preserves ----------

  lemma {:induction false} DropZerosFacts(s: string)
    requires HexDigits(s)
    ensures HexDigits(DropZeros(s)) && HexValue(DropZeros(s)) == HexValue(s)
    ensures DropZeros(s) != "" ==> DropZeros(s)[0] != '0'
  {
    if s != "" && s[0] == '0' {
      LeadingZero(s);
      DropZerosFacts(s[1..]);
    }
  }

  lemma {:induction false} LeadingZero(s: string)
    requires HexDigits(s) && s != "" && s[0] == '0'
    ensures HexValue(s) == HexValue(s[1..])
  {
    if |s| == 1 {
      assert s[..0] == "";
    } else {
      LeadingZero(s[..|s| - 1]);
      assert s[..|s| - 1][1..] == s[1..][..|s| - 2];
    }
  }

  lemma SignificantFacts(hex: string)
    requires HexDigits(hex)
    ensures HexDigits(Significant(hex)) && Significant(hex) != ""
    ensures HexValue(Significant(hex)) == HexValue(hex)
    ensures DropZeros("00" + Significant(hex)) == DropZeros(hex) == DropZeros(Significant(hex))
  {
    DropZerosFacts(hex);
    var t := Significant(hex);
    assert ("00" + t)[1..] == "0" + t && ("0" + t)[1..] == t;
    assert DropZeros("00" + t) == DropZeros("0" + t) == DropZeros(t);
    if DropZeros(hex) == "" {
      assert t[1..] == "";
      assert DropZeros(t) == DropZeros("") == "";
    } else {
      assert DropZeros(t) == t;
    }
  }

  /** How a trimmed hex-headed name splits again. */
  lemma TrimmedShape(name: string)
    requires HexHeaded(name)
    ensures var (first, rest) := SplitOnce(name).value;
            var head := (if Prefixed(first) then "0x" else "00") + Significant(HexPart(first));
            && TrimHexAddress(name) == head + "::" + rest
            && SplitOnce(TrimHexAddress(name)) == Some((head, rest))
            && Prefixed(head) == Prefixed(first)
            && HexPart(head) == (if Prefixed(first) then "" else "00") + Significant(HexPart(first))
            && HexDigits(HexPart(head))
  {
    var (first, rest) := SplitOnce(name).value;
    var digits := Significant(HexPart(first));
    SignificantFacts(HexPart(first));
    var head := (if Prefixed(first) then "0x" else "00") + digits;
    assert head[..2] == (if Prefixed(first) then "0x" else "00");
    assert head[2..] == digits;
    SplitOfHead(head, rest);
  }

  /** The number the head denotes, its having "0x", and all behind the first "::" survive: `first` and
      `rest` are the parts of the name before and behind a "::" with no other further left. */
  lemma TrimPreserves(name: string)
    requires HexHeaded(name)
    ensures HexHeaded(TrimHexAddress(name))
    ensures var (first, rest) := SplitOnce(name).value;
            var (first', rest') := SplitOnce(TrimHexAddress(name)).value;
            && name == first + "::" + rest && (forall j :: 0 <= j < |first| ==> !SeparatorAt(name, j))
            && TrimHexAddress(name) == first' + "::" + rest'
            && rest' == rest
            && Prefixed(first') == Prefixed(first)
            && HexValue(HexPart(first')) == HexValue(HexPart(first))
  {
    SplitSound(name, 0);
    SplitSound(TrimHexAddress(name), 0);
    TrimmedShape(name);
    var (first, rest) := SplitOnce(name).value;
    SignificantFacts(HexPart(first));
    var head := SplitOnce(TrimHexAddress(name)).value.0;
    DropZerosFacts(HexPart(head));
    DropZerosFacts(HexPart(first));
  }

  /** Trimming twice is trimming once, and names without a hexadecimal head are left as they are. */
  lemma TrimIdempotent(name: string)
    ensures !HexHeaded(name) ==> TrimHexAddress(name) == name
    ensures TrimHexAddress(TrimHexAddress(name)) == TrimHexAddress(name)
  {
    if HexHeaded(name) {
      TrimmedShape(name);
      SignificantFacts(HexPart(SplitOnce(name).value.0));
    }
  }

  /** Two hex-headed names are displayed alike exactly when they agree on the prefix, on the digits
      behind the leading zeros, and on the rest. */
  lemma TrimNormalForm(a: string, b: string)
    requires HexHeaded(a) && HexHeaded(b)
    ensures var (firstA, restA) := SplitOnce(a).value;
            var (firstB, restB) := SplitOnce(b).value;
            TrimHexAddress(a) == TrimHexAddress(b) <==>
              && Prefixed(firstA) == Prefixed(firstB)
              && DropZeros(HexPart(firstA)) == DropZeros(HexPart(firstB))
              && restA == restB
  {
    TrimmedShape(a);
    TrimmedShape(b);
    SignificantFacts(HexPart(SplitOnce(a).value.0));
    SignificantFacts(HexPart(SplitOnce(b).value.0));
  }

  // ---------- Which names are trimmed, and to what ----------

  /** The digits of base 16, of either case, and their values. */
  lemma HexDigitsAre(c: char)
    ensures IsHexDigit(c) <==> c in "0123456789abcdef" || c in "0123456789ABCDEF"
    ensures IsHexDigit(c) ==> c == "0123456789abcdef"[HexDigit(c)] || c == "0123456789ABCDEF"[HexDigit(c)]
  {
    if IsHexDigit(c) {
      assert c == "0123456789abcdef"[HexDigit(c)] || c == "0123456789ABCDEF"[HexDigit(c)];
    }
  }

  function Zeros(n: nat): string { seq(n, i => '0') }

  lemma {:induction false} DropZerosOf(n: nat, s: string)
    requires s == "" || s[0] != '0'
    ensures DropZeros(Zeros(n) + s) == s
  {
    if n == 0 {
      assert Zeros(0) + s == s;
    } else {
      assert (Zeros(n) + s)[1..] == Zeros(n - 1) + s;
      DropZerosOf(n - 1, s);
    }
  }

  lemma HeadParts(prefix: string, hex: string)
    requires (prefix == "" || prefix == "0x") && HexDigits(hex)
    ensures Prefixed(prefix + hex) == (prefix == "0x") && HexPart(prefix + hex) == hex && ':' !in prefix + hex
  {
    if prefix == "" {
      assert prefix + hex == hex;
      if |hex| > 1 { assert IsHexDigit(hex[1]); }
    }
  }

  /** Behind "0x" or nothing, zeros in front of the first other hexadecimal digit go, and of zeros alone one
      stays; "00" is put where there was no "0x". */
  lemma TrimsTo(prefix: string, zeros: nat, digits: string, rest: string)
    requires (prefix == "" || prefix == "0x") && HexDigits(digits)
    requires if digits == "" then zeros > 0 else digits[0] != '0'
    ensures TrimHexAddress(prefix + (Zeros(zeros) + digits) + "::" + rest) ==
            (if prefix == "" then "00" else "0x") + (if digits == "" then "0" else digits) + "::" + rest
  {
    var hex := Zeros(zeros) + digits;
    HeadParts(prefix, hex);
    SplitOfHead(prefix + hex, rest);
    DropZerosOf(zeros, digits);
  }

  /** Every other name stays: one that does not start with such a head and a "::". */
  lemma OthersStay(name: string)
    requires forall first, rest :: name == first + "::" + rest ==> !HexDigits(HexPart(first)) || HexPart(first) == ""
    ensures TrimHexAddress(name) == name
  {
    SplitSound(name, 0);
  }
}
