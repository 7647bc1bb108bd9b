/** Strings as the server sees them: one `char` stands for one byte of a `std::string`. */
module Text {

  datatype Option<+T> = None | Some(value: T)

  const CRLF := "\r\n"
  const NUL := '\0'
  const INT_MAX := 2147483647
  const SIZE_MODULUS := 0x1_0000_0000_0000_0000 // size_t is 64 bits wide

  predicate MatchAt(s: string, pat: string, i: nat) {
    i + |pat| <= |s| && s[i..i + |pat|] == pat
  }

  predicate Contains(s: string, pat: string) {
    Find(s, pat, 0).Some?
  }

  /** `std::string::find(pat, from)`: the leftmost match at or after `from`. */
  function Find(s: string, pat: string, from: nat): (r: Option<nat>)
    ensures r.Some? ==> from <= r.value && r.value + |pat| <= |s|
    decreases |s| - from
  {
    if from + |pat| > |s| then None
    else if MatchAt(s, pat, from) then Some(from)
    else Find(s, pat, from + 1)
  }

  lemma {:induction false} FindMeaning(s: string, pat: string, from: nat)
    ensures var r := Find(s, pat, from);
            && (r.Some? ==> MatchAt(s, pat, r.value))
            && (r.Some? ==> forall j: nat :: from <= j < r.value ==> !MatchAt(s, pat, j))
            && (r.None? ==> forall j: nat :: from <= j ==> !MatchAt(s, pat, j))
    decreases |s| - from
  {
    if from + |pat| <= |s| && !MatchAt(s, pat, from) {
      FindMeaning(s, pat, from + 1);
    }
  }

  /** The leftmost match is the only position with these two properties. */
  lemma FindIs(s: string, pat: string, from: nat, at: nat)
    requires from <= at && MatchAt(s, pat, at)
    requires forall j: nat :: from <= j < at ==> !MatchAt(s, pat, j)
    ensures Find(s, pat, from) == Some(at)
  {
    FindMeaning(s, pat, from);
    var r := Find(s, pat, from);
    assert r.Some? && r.value <= at;
  }

  lemma FindNone(s: string, pat: string, from: nat)
    requires forall j: nat :: from <= j ==> !MatchAt(s, pat, j)
    ensures Find(s, pat, from) == None
  {
    FindMeaning(s, pat, from);
  }

  lemma MatchPrefix(s: string, t: string, pat: string, i: nat)
    requires i + |pat| <= |s|
    ensures MatchAt(s + t, pat, i) == MatchAt(s, pat, i)
  {
    assert (s + t)[i..i + |pat|] == s[i..i + |pat|];
  }

  /** Appending bytes never moves a match that was already found. */
  lemma FindAppend(s: string, t: string, pat: string, from: nat)
    requires Find(s, pat, from).Some?
    ensures Find(s + t, pat, from) == Find(s, pat, from)
  {
    var at := Find(s, pat, from).value;
    FindMeaning(s, pat, from);
    forall j: nat | from <= j <= at ensures MatchAt(s + t, pat, j) == MatchAt(s, pat, j) {
      MatchPrefix(s, t, pat, j);
    }
    FindIs(s + t, pat, from, at);
  }

  /** A match that appears only after appending reaches into the new bytes. */
  lemma FindAppendNew(s: string, t: string, pat: string, from: nat)
    requires Find(s, pat, from).None?
    ensures Find(s + t, pat, from).Some? ==> Find(s + t, pat, from).value + |pat| > |s|
  {
    var r := Find(s + t, pat, from);
    FindMeaning(s, pat, from);
    FindMeaning(s + t, pat, from);
    if r.Some? && r.value + |pat| <= |s| {
      MatchPrefix(s, t, pat, r.value);
    }
  }

  /** Searching a suffix is searching the whole string from that offset. */
  lemma {:induction false} FindSuffix(s: string, pat: string, base: nat, from: nat)
    requires base <= |s|
    ensures Find(s, pat, base + from) ==
            match Find(s[base..], pat, from)
            case None => None
            case Some(p) => Some(base + p)
    decreases |s| - base - from
  {
    if base + from + |pat| <= |s| {
      assert s[base..][from..from + |pat|] == s[base + from..base + from + |pat|];
      assert base + (from + 1) == base + from + 1;
      FindSuffix(s, pat, base, from + 1);
    }
  }

  /** A line free of CRLF is cut exactly at the CRLF that was written after it. */
  lemma FindLineEnd(pre: string, line: string, rest: string)
    requires !Contains(line, CRLF)
    ensures Find(pre + line + CRLF + rest, CRLF, |pre|) == Some(|pre| + |line|)
  {
    var s := pre + line + CRLF + rest;
    var at := |pre| + |line|;
    FindMeaning(line, CRLF, 0);
    assert s[at..at + 2] == CRLF;
    forall j: nat | |pre| <= j < at ensures !MatchAt(s, CRLF, j) {
      if j + 2 <= at {
        assert s[j..j + 2] == line[j - |pre|..j - |pre| + 2];
        assert !MatchAt(line, CRLF, j - |pre|);
      } else {
        assert s[j..j + 2][1] == s[at] == '\r';
      }
    }
    FindIs(s, CRLF, |pre|, at);
  }

  lemma NoCarriageReturn(s: string)
    requires '\r' !in s
    ensures !Contains(s, CRLF)
  {
    ByteAbsent(s, CRLF, 0);
  }

  /** A pattern one of whose bytes does not occur in the text is not found. */
  lemma ByteAbsent(s: string, pat: string, k: nat)
    requires k < |pat| && pat[k] !in s
    ensures !Contains(s, pat)
  {
    forall j: nat ensures !MatchAt(s, pat, j) {
      if j + |pat| <= |s| {
        assert s[j..j + |pat|][k] == s[j + k];
      }
    }
    FindNone(s, pat, 0);
  }

  // ---------------------------------------------------------------- white space and tokens

  predicate IsSpace(c: char) {
    c == ' ' || c == '\t' || c == '\n' || c == '\r' || c == '\U{0B}' || c == '\U{0C}'
  }

  predicate NoSpace(s: string) {
    forall c :: c in s ==> !IsSpace(c)
  }

  function SkipSpace(s: string, i: nat): (j: nat)
    requires i <= |s|
    ensures i <= j <= |s|
    ensures forall k :: i <= k < j ==> IsSpace(s[k])
    ensures j < |s| ==> !IsSpace(s[j])
    decreases |s| - i
  {
    if i < |s| && IsSpace(s[i]) then SkipSpace(s, i + 1) else i
  }

  function TokenEnd(s: string, i: nat): (j: nat)
    requires i <= |s|
    ensures i <= j <= |s|
    ensures forall k :: i <= k < j ==> !IsSpace(s[k])
    ensures j < |s| ==> IsSpace(s[j])
    decreases |s| - i
  {
    if i < |s| && !IsSpace(s[i]) then TokenEnd(s, i + 1) else i
  }

  /** `stream >> field`: the next token and the position after it; at the end of the
      stream the extraction fails and leaves the field as it was. */
  function Extract(s: string, i: nat, field: string): (r: (string, nat))
    requires i <= |s|
    ensures i <= r.1 <= |s|
  {
    var a := SkipSpace(s, i);
    var b := TokenEnd(s, a);
    if a == b then (field, a) else (s[a..b], b)
  }

  lemma ExtractToken(pre: string, token: string, post: string, i: nat, field: string)
    requires token != "" && NoSpace(token)
    requires i <= |pre| && forall k :: i <= k < |pre| ==> IsSpace(pre[k])
    requires post == "" || IsSpace(post[0])
    ensures Extract(pre + token + post, i, field) == (token, |pre| + |token|)
  {
    var s := pre + token + post;
    assert forall k :: i <= k < |pre| ==> IsSpace(s[k]) by {
      assert forall k :: i <= k < |pre| ==> s[k] == pre[k];
    }
    assert forall k :: |pre| <= k < |pre| + |token| ==> !IsSpace(s[k]) by {
      assert forall k :: |pre| <= k < |pre| + |token| ==> s[k] == token[k - |pre|] && s[k] in token;
    }
    assert !IsSpace(s[|pre|]);
    assert post != "" ==> s[|pre| + |token|] == post[0];
    var a := SkipSpace(s, i);
    assert a == |pre|;
    var b := TokenEnd(s, a);
    assert s[a..b] == token;
  }

  // ---------------------------------------------------------------- decimal numbers

  predicate IsDigit(c: char) {
    '0' <= c <= '9'
  }

  predicate AllDigits(s: string) {
    forall c :: c in s ==> IsDigit(c)
  }

  /** `std::to_string` of an unsigned number. */
  function ToDecimal(n: nat): (s: string)
    ensures s != "" && AllDigits(s)
  {
    if n < 10 then [(n + 48) as char]
    else ToDecimal(n / 10) + [(n % 10 + 48) as char]
  }

  function DecimalValue(s: string): nat
    requires AllDigits(s)
  {
    if s == "" then 0
    else assert IsDigit(s[|s| - 1]); 10 * DecimalValue(s[..|s| - 1]) + (s[|s| - 1] as int - 48)
  }

  lemma {:induction false} DecimalRoundTrip(n: nat)
    ensures DecimalValue(ToDecimal(n)) == n
  {
    var s := ToDecimal(n);
    if n < 10 {
      assert s[..|s| - 1] == "";
    } else {
      DecimalRoundTrip(n / 10);
      assert s[..|s| - 1] == ToDecimal(n / 10);
    }
  }

  function DigitsEnd(s: string, i: nat): (j: nat)
    requires i <= |s|
    ensures i <= j <= |s| && AllDigits(s[i..j])
    ensures j < |s| ==> !IsDigit(s[j])
    decreases |s| - i
  {
    if i < |s| && IsDigit(s[i]) then
      var j := DigitsEnd(s, i + 1);
      assert s[i..j] == [s[i]] + s[i + 1..j];
      j
    else i
  }

  /** `std::stoi`: None stands for the exceptions `invalid_argument` (no digits) and
      `out_of_range` (value outside `int`). */
  function Stoi(s: string): (r: Option<int>)
    ensures r.Some? ==> -INT_MAX - 1 <= r.value <= INT_MAX
  {
    var a := SkipSpace(s, 0);
    var negative := a < |s| && s[a] == '-';
    var b := if a < |s| && (s[a] == '-' || s[a] == '+') then a + 1 else a;
    var c := DigitsEnd(s, b);
    if b == c then None
    else
      var m: int := DecimalValue(s[b..c]);
      var v := if negative then -m else m;
      if -INT_MAX - 1 <= v <= INT_MAX then Some(v) else None
  }

  lemma StoiOfDecimal(n: nat)
    ensures Stoi(" " + ToDecimal(n)) == if n <= INT_MAX then Some(n) else None
  {
    var d := ToDecimal(n);
    var s := " " + d;
    assert s[1] == d[0] && IsDigit(d[0]);
    assert SkipSpace(s, 0) == 1;
    assert forall k :: 1 <= k < |s| ==> s[k] == d[k - 1] && IsDigit(s[k]);
    assert DigitsEnd(s, 1) == |s|;
    assert s[1..|s|] == d;
    DecimalRoundTrip(n);
  }

  predicate AllZero(s: string) {
    forall c :: c in s ==> c == '0'
  }

  lemma {:induction false} ZerosAreNothing(zeros: string)
    requires AllZero(zeros)
    ensures AllDigits(zeros) && DecimalValue(zeros) == 0
  {
    if zeros != "" {
      var k := |zeros| - 1;
      assert forall c :: c in zeros[..k] ==> c in zeros;
      ZerosAreNothing(zeros[..k]);
      assert zeros[k] in zeros;
    }
  }

  lemma {:induction false} LeadingZeros(zeros: string, n: nat)
    requires AllZero(zeros)
    ensures AllDigits(zeros + ToDecimal(n)) && DecimalValue(zeros + ToDecimal(n)) == n
    decreases n
  {
    var d := ToDecimal(n);
    var s := zeros + d;
    ZerosAreNothing(zeros);
    if n < 10 {
      assert s[..|s| - 1] == zeros;
    } else {
      LeadingZeros(zeros, n / 10);
      assert s[..|s| - 1] == zeros + ToDecimal(n / 10);
    }
  }

  predicate AllSpace(s: string) {
    forall c :: c in s ==> IsSpace(c)
  }

  lemma BlanksEnd(blanks: string, rest: string)
    requires AllSpace(blanks) && (rest == "" || !IsSpace(rest[0]))
    ensures SkipSpace(blanks + rest, 0) == |blanks|
  {
    var s := blanks + rest;
    assert forall k :: 0 <= k < |blanks| ==> s[k] == blanks[k] && blanks[k] in blanks;
    assert rest != "" ==> s[|blanks|] == rest[0];
  }

  lemma DigitsInside(s: string, i: nat, j: nat, k: nat)
    requires i <= k < j <= |s| && AllDigits(s[i..j])
    ensures IsDigit(s[k])
  {
    assert s[i..j][k - i] in s[i..j];
  }

  lemma DigitsAt(pre: string, digits: string, rest: string)
    requires AllDigits(digits) && (rest == "" || !IsDigit(rest[0]))
    ensures DigitsEnd(pre + digits + rest, |pre|) == |pre| + |digits|
  {
    var s := pre + digits + rest;
    var j, end := DigitsEnd(s, |pre|), |pre| + |digits|;
    assert forall k :: |pre| <= k < end ==> s[k] == digits[k - |pre|] && digits[k - |pre|] in digits;
    if end < j {
      DigitsInside(s, |pre|, j, end);
    }
    assert rest != "" ==> s[end] == rest[0];
  }

  /** `stoi` in terms of where the blanks end, where the digits begin and what they are. */
  lemma StoiIs(s: string, a: nat, b: nat, digits: string)
    requires SkipSpace(s, 0) == a && b + |digits| <= |s| && DigitsEnd(s, b) == b + |digits|
    requires b == if a < |s| && (s[a] == '-' || s[a] == '+') then a + 1 else a
    requires s[b..b + |digits|] == digits && AllDigits(digits)
    ensures Stoi(s) ==
            if digits == "" then None
            else InInt(if s[a] == '-' then -(DecimalValue(digits) as int) else DecimalValue(digits))
  {
  }

  /** The values of `int`. */
  function InInt(v: int): Option<int> {
    if -2147483648 <= v <= 2147483647 then Some(v) else None
  }

  /** What `stoi` reads: blanks, a sign, the digits of a number with any zeros in front of them, up to
      the first other character; and whether the number fits an `int`. */
  lemma StoiText(blanks: string, sign: string, zeros: string, n: nat, rest: string)
    requires AllSpace(blanks) && (sign == "" || sign == "+" || sign == "-") && AllZero(zeros)
    requires rest == "" || !IsDigit(rest[0])
    ensures Stoi(blanks + (sign + (zeros + ToDecimal(n)) + rest)) == InInt(if sign == "-" then -(n as int) else n)
  {
    LeadingZeros(zeros, n);
    StoiDigits(blanks, sign, zeros + ToDecimal(n), rest);
  }

  lemma StoiDigits(blanks: string, sign: string, digits: string, rest: string)
    requires AllSpace(blanks) && (sign == "" || sign == "+" || sign == "-") && AllDigits(digits) && digits != ""
    requires rest == "" || !IsDigit(rest[0])
    ensures Stoi(blanks + (sign + digits + rest)) ==
            InInt(if sign == "-" then -(DecimalValue(digits) as int) else DecimalValue(digits))
  {
    assert digits[0] in digits;
    SignedAt(blanks, sign, digits, rest);
    DigitsAt(blanks + sign, digits, rest);
    SecondOfThree(blanks + sign, digits, rest);
    StoiIs(blanks + (sign + digits + rest), |blanks|, |blanks + sign|, digits);
  }

  lemma SecondOfThree(a: string, b: string, c: string)
    ensures (a + b + c)[|a|..|a| + |b|] == b
  {
  }

  lemma SignedAt(blanks: string, sign: string, digits: string, rest: string)
    requires AllSpace(blanks) && (sign == "" || sign == "+" || sign == "-") && digits != "" && IsDigit(digits[0])
    ensures var s := blanks + (sign + digits + rest);
            && s == blanks + sign + digits + rest
            && SkipSpace(s, 0) == |blanks|
            && s[|blanks|] == if sign == "" then digits[0] else sign[0]
  {
    BlanksEnd(blanks, sign + digits + rest);
  }

  /** No digit behind the blanks and the sign: no number. */
  lemma StoiNoNumber(blanks: string, sign: string, rest: string)
    requires AllSpace(blanks) && (sign == "" || sign == "+" || sign == "-")
    requires rest == "" || !IsDigit(rest[0])
    requires sign == "" && rest != "" ==> !IsSpace(rest[0]) && rest[0] != '+' && rest[0] != '-'
    ensures Stoi(blanks + (sign + rest)) == None
  {
    var tail := sign + rest;
    assert tail != "" ==> tail[0] == if sign == "" then rest[0] else sign[0];
    BlanksEnd(blanks, tail);
    var none := rest[..0];
    DigitsAt(blanks + sign, none, rest);
    assert blanks + tail == blanks + sign + none + rest;
    StoiIs(blanks + tail, |blanks|, |blanks + sign|, none);
  }

  // ---------------------------------------------------------------- concatenation

  function Concat(parts: seq<string>): string {
    if parts == [] then "" else parts[0] + Concat(parts[1..])
  }

  lemma Regroup(a: string, b: string, c: string)
    ensures a + b + c == a + (b + c)
  {
  }

  lemma FourParts(a: string, b: string, c: string, d: string)
    ensures a + b + c + d == a + (b + c + d)
  {
  }

  lemma ConcatTwo(a: string, b: string)
    ensures Concat([a, b]) == a + b
  {
    assert [a, b][1..] == [b];
    ConcatOne(b);
  }

  lemma ConcatOne(a: string)
    ensures Concat([a]) == a
  {
    assert Concat([a]) == a + Concat([]);
  }

  lemma {:induction false} ConcatAppend(parts: seq<string>, more: seq<string>)
    ensures Concat(parts + more) == Concat(parts) + Concat(more)
  {
    if parts == [] {
      assert parts + more == more;
    } else {
      assert (parts + more)[1..] == parts[1..] + more;
      ConcatAppend(parts[1..], more);
    }
  }
}
