/** GTIN check digits and barcode extraction (app/documents/fields.py). */
module Gtin {
  // The check digit rule is that of section 7.9 of the GS1 General Specifications. Digits are the
  // characters '0' to '9'.

  import opened Sequences

  predicate IsDigit(c: char) { '0' <= c <= '9' }

  predicate AllDigits(s: string) { forall i :: 0 <= i < |s| ==> IsDigit(s[i]) }

  function Digit(c: char): int
    requires IsDigit(c)
  {
    c as int - '0' as int
  }

  function DigitChar(d: nat): (c: char)
    requires d < 10
    ensures IsDigit(c) && Digit(c) == d
  {
    (d + '0' as int) as char
  }

  /** A digit at a distance from the check digit: weights alternate 1, 3 and the check digit counts once. */
  function Weighed(d: int, distance: nat): int { if distance % 2 == 0 then d else 3 * d }

  /** The weighted sum of a whole code, the check digit included. */
  ghost function WeightedSum(code: string): int
    requires AllDigits(code)
  {
    if code == "" then 0 else Weighed(Digit(code[0]), |code| - 1) + WeightedSum(code[1..])
  }

  /** The standard's rule: at least eight digits whose weighted sum is a multiple of ten. */
  ghost predicate IsGtin(code: string) {
    |code| >= 8 && AllDigits(code) && WeightedSum(code) % 10 == 0
  }

  /** The weighted sum of a body, whose last digit counts three times. */
  ghost function BodySum(body: string): int
    requires AllDigits(body)
  {
    if body == "" then 0 else Weighed(Digit(body[0]), |body|) + BodySum(body[1..])
  }

  lemma {:induction false} CheckDigitAdds(body: string, check: char)
    requires AllDigits(body) && IsDigit(check)
    ensures AllDigits(body + [check])
    ensures WeightedSum(body + [check]) == BodySum(body) + Digit(check)
  {
    var code := body + [check];
    if body == "" {
      assert code[1..] == "";
      assert WeightedSum(code) == Weighed(Digit(check), 0) + WeightedSum("");
    } else {
      CheckDigitAdds(body[1..], check);
      assert code[1..] == body[1..] + [check];
    }
  }

  lemma BodySumStep(body: string, i: nat)
    requires AllDigits(body) && i < |body|
    ensures BodySum(body[|body| - (i + 1)..])
      == Weighed(Digit(body[|body| - 1 - i]), i + 1) + BodySum(body[|body| - i..])
  {
    assert body[|body| - (i + 1)..][1..] == body[|body| - i..];
  }

  lemma WeightTimes(d: int, i: nat, weight: int)
    requires weight == if i % 2 == 0 then 3 else 1
    ensures d * weight == Weighed(d, i + 1)
  {
  }

  lemma CompletesToTen(total: int, check: int)
    requires 0 <= check < 10
    ensures (10 - total % 10) % 10 == check <==> (total + check) % 10 == 0
  {
  }

  /** The checksum test: the loop runs over the reversed body. */
  method GtinChecksumValid(digits: string) returns (valid: bool)
    ensures valid <==> IsGtin(digits)
  {
    if |digits| < 8 || !AllDigits(digits) {
      return false;
    }
    hide BodySum, WeightedSum, Weighed;
    var body := digits[..|digits| - 1];
    var check := Digit(digits[|digits| - 1]);
    var total := 0;
    assert body[|body| - 0..] == "";
    EmptyBody();
    for i := 0 to |body|
      invariant total == BodySum(body[|body| - i..])
    {
      var weight := if i % 2 == 0 then 3 else 1;
      BodySumStep(body, i);
      WeightTimes(Digit(body[|body| - 1 - i]), i, weight);
      total := total + Digit(body[|body| - 1 - i]) * weight;
    }
    assert body[|body| - |body|..] == body;
    CheckDigitAdds(body, digits[|digits| - 1]);
    assert body + [digits[|digits| - 1]] == digits;
    CompletesToTen(total, check);
    valid := (10 - total % 10) % 10 == check;
  }

  lemma EmptyBody()
    ensures BodySum("") == 0
  {
  }

  // ---------------------------------------------------------------- error detection

  lemma {:induction false} SumOfSubstitution(code: string, k: nat, c: char)
    requires AllDigits(code) && k < |code| && IsDigit(c)
    ensures AllDigits(code[k := c])
    ensures WeightedSum(code[k := c]) == WeightedSum(code) + Weighed(Digit(c) - Digit(code[k]), |code| - 1 - k)
  {
    if k == 0 {
      assert code[k := c][1..] == code[1..];
    } else {
      assert code[k := c][1..] == code[1..][k - 1 := c];
      SumOfSubstitution(code[1..], k - 1, c);
    }
  }

  /** Changing any one digit of a valid code makes it invalid. */
  lemma SubstitutionIsRejected(code: string, k: nat, c: char)
    requires IsGtin(code) && k < |code| && IsDigit(c) && c != code[k]
    ensures !IsGtin(code[k := c])
  {
    SumOfSubstitution(code, k, c);
    ChangeShows(WeightedSum(code), Digit(c) - Digit(code[k]), |code| - 1 - k);
  }

  lemma ChangeShows(sum: int, d: int, distance: nat)
    requires sum % 10 == 0 && -9 <= d <= 9 && d != 0
    ensures (sum + Weighed(d, distance)) % 10 != 0
  {
  }

  lemma SwapShowsIff(sum: int, d: int, distance: nat)
    requires sum % 10 == 0 && -9 <= d <= 9
    ensures (sum + Weighed(d, distance + 1) - Weighed(d, distance)) % 10 != 0 <==> d % 5 != 0
  {
  }

  function Swapped(code: string, i: nat, j: nat): (s: string)
    requires i < |code| && j < |code|
    ensures |s| == |code|
  {
    code[i := code[j]][j := code[i]]
  }

  lemma SumOfSwap(code: string, i: nat, j: nat)
    requires AllDigits(code) && i < j < |code|
    ensures AllDigits(Swapped(code, i, j))
    ensures var d := Digit(code[j]) - Digit(code[i]);
      WeightedSum(Swapped(code, i, j)) == WeightedSum(code) + Weighed(d, |code| - 1 - i) - Weighed(d, |code| - 1 - j)
  {
    hide WeightedSum;
    SumOfSubstitution(code, i, code[j]);
    SumOfSubstitution(code[i := code[j]], j, code[i]);
  }

  /** Swapping two neighbours of a valid code goes unnoticed exactly when they differ by 0 or 5. */
  lemma TranspositionIsRejectedIff(code: string, k: nat)
    requires IsGtin(code) && k + 1 < |code|
    ensures !IsGtin(Swapped(code, k, k + 1)) <==> (Digit(code[k]) - Digit(code[k + 1])) % 5 != 0
  {
    hide WeightedSum, Weighed, Swapped;
    SumOfSwap(code, k, k + 1);
    SwapShowsIff(WeightedSum(code), Digit(code[k + 1]) - Digit(code[k]), |code| - 1 - (k + 1));
    hide Digit;
    SameRemainder(Digit(code[k]), Digit(code[k + 1]));
  }

  lemma SameRemainder(a: int, b: int)
    ensures (a - b) % 5 == 0 <==> (b - a) % 5 == 0
  {
  }

  /** Digits an even number of places apart carry the same weight: swapping them is never noticed. */
  lemma JumpTranspositionPasses(code: string, i: nat, j: nat)
    requires IsGtin(code) && i < j < |code| && (j - i) % 2 == 0
    ensures IsGtin(Swapped(code, i, j))
  {
    hide WeightedSum, Swapped;
    SumOfSwap(code, i, j);
    SameWeight(Digit(code[j]) - Digit(code[i]), |code| - 1 - i, |code| - 1 - j);
    hide Weighed, Digit;
  }

  lemma SameWeight(d: int, far: nat, near: nat)
    requires far >= near && (far - near) % 2 == 0
    ensures Weighed(d, far) == Weighed(d, near)
  {
    assert far % 2 == near % 2;
  }

  /** Every body of at least seven digits has exactly one check digit. */
  lemma CheckDigitIsUnique(body: string)
    requires AllDigits(body) && |body| >= 7
    ensures exists d: nat :: d < 10 && forall c :: IsDigit(c) ==> (IsGtin(body + [c]) <==> c == DigitChar(d))
  {
    var d := (10 - BodySum(body) % 10) % 10;
    forall c | IsDigit(c) ensures IsGtin(body + [c]) <==> c == DigitChar(d) {
      CheckDigitAdds(body, c);
      assert (BodySum(body) + Digit(c)) % 10 == 0 <==> Digit(c) == d;
    }
  }

  function Zeros(n: nat): string { seq(n, _ => '0') }

  /** Padding with leading zeros changes neither way whether a code is valid. */
  lemma {:induction false} ZeroPaddingKeepsValidity(code: string, zeros: nat)
    requires |code| >= 8
    ensures IsGtin(Zeros(zeros) + code) <==> IsGtin(code)
  {
    if zeros == 0 {
      assert Zeros(0) + code == code;
    } else {
      var padded := Zeros(zeros) + code;
      ZeroPaddingKeepsValidity(code, zeros - 1);
      assert padded[1..] == Zeros(zeros - 1) + code && padded[0] == '0';
      assert AllDigits(padded) <==> AllDigits(padded[1..]);
    }
  }

  // ---------------------------------------------------------------- extraction

  /** Where `(?<!\d)(\d{n})(?!\d)` matches: a maximal run of exactly `n` digits. */
  predicate MatchesAt(text: string, i: nat, n: nat) {
    && i + n <= |text| && AllDigits(text[i..i + n])
    && (i > 0 ==> !IsDigit(text[i - 1]))
    && (i + n < |text| ==> !IsDigit(text[i + n]))
  }

  // ---------------------------------------------------------------- removing repetitions

  /** The ASCII characters that `str.strip` removes. */
  predicate IsSpace(c: char) { c as int == 32 || 9 <= c as int <= 13 || 28 <= c as int <= 31 }

  function StripLeft(s: string): string { if s != "" && IsSpace(s[0]) then StripLeft(s[1..]) else s }

  function StripRight(s: string): string {
    if s != "" && IsSpace(s[|s| - 1]) then StripRight(s[..|s| - 1]) else s
  }

  function Strip(s: string): string { StripRight(StripLeft(s)) }

  function LowerChar(c: char): char { if 'A' <= c <= 'Z' then (c as int + 32) as char else c }

  function Lower(s: string): (l: string)
    ensures |l| == |s| && forall i :: 0 <= i < |s| ==> l[i] == LowerChar(s[i])
  {
    seq(|s|, i requires 0 <= i < |s| => LowerChar(s[i]))
  }

  ghost predicate HasKey(out: seq<string>, key: string) { exists i :: 0 <= i < |out| && Lower(out[i]) == key }

  /** Stripped, without blanks, each spelling up to case once: the first, in order. */
  ghost function DistinctByKey(values: seq<string>): seq<string> {
    if values == [] then []
    else
      var init, v := DistinctByKey(values[..|values| - 1]), Strip(values[|values| - 1]);
      if v == "" || HasKey(init, Lower(v)) then init else init + [v]
  }

  ghost predicate KeysDiffer(out: seq<string>) {
    forall i, j :: 0 <= i < j < |out| ==> Lower(out[i]) != Lower(out[j])
  }

  lemma {:induction false} ResultKeysDiffer(values: seq<string>)
    ensures KeysDiffer(DistinctByKey(values))
  {
    hide Strip, Lower;
    if values != [] {
      var init, v := DistinctByKey(values[..|values| - 1]), Strip(values[|values| - 1]);
      ResultKeysDiffer(values[..|values| - 1]);
      if !HasKey(init, Lower(v)) { NewKeyDiffers(init, v); }
      hide KeysDiffer;
    }
  }

  lemma NewKeyDiffers(out: seq<string>, v: string)
    requires KeysDiffer(out) && !HasKey(out, Lower(v))
    ensures KeysDiffer(out + [v])
  {
    hide Lower;
    forall i, j | 0 <= i < j < |out + [v]| ensures Lower((out + [v])[i]) != Lower((out + [v])[j]) {
      assert (out + [v])[i] == out[i];
    }
  }

  ghost predicate IsStripped(v: string, values: seq<string>) {
    v != "" && exists k :: 0 <= k < |values| && Strip(values[k]) == v
  }

  lemma {:induction false} ResultsAreStripped(values: seq<string>, i: nat)
    requires i < |DistinctByKey(values)|
    ensures IsStripped(DistinctByKey(values)[i], values)
    decreases |values|
  {
    hide Strip, Lower, HasKey;
    var init := values[..|values| - 1];
    if i < |DistinctByKey(init)| {
      ResultsAreStripped(init, i);
      var k :| 0 <= k < |init| && Strip(init[k]) == DistinctByKey(init)[i];
      assert values[k] == init[k];
    } else {
      assert Strip(values[|values| - 1]) == DistinctByKey(values)[i];
    }
  }

  lemma {:induction false} KeysAreKept(values: seq<string>, k: nat)
    requires k < |values| && Strip(values[k]) != ""
    ensures HasKey(DistinctByKey(values), Lower(Strip(values[k])))
    decreases |values|
  {
    hide Strip, Lower, HasKey;
    var init, last := values[..|values| - 1], Strip(values[|values| - 1]);
    KeyAdded(DistinctByKey(init), last);
    if k < |init| {
      KeysAreKept(init, k);
      assert init[k] == values[k];
    }
  }

  /** Every value that is not blank is there once up to case, and nothing else is. */
  lemma DistinctByKeyIsExact(values: seq<string>)
    ensures var out := DistinctByKey(values);
      && KeysDiffer(out)
      && (forall i: nat :: i < |out| ==> IsStripped(out[i], values))
      && (forall k: nat :: k < |values| && Strip(values[k]) != "" ==> HasKey(out, Lower(Strip(values[k]))))
  {
    hide Strip, Lower, HasKey, IsStripped, DistinctByKey;
    ResultKeysDiffer(values);
    forall i: nat | i < |DistinctByKey(values)| ensures IsStripped(DistinctByKey(values)[i], values) {
      ResultsAreStripped(values, i);
    }
    forall k: nat | k < |values| && Strip(values[k]) != ""
      ensures HasKey(DistinctByKey(values), Lower(Strip(values[k])))
    {
      KeysAreKept(values, k);
    }
  }

  lemma {:induction false} DistinctByKeyGrows(values: seq<string>, k: nat)
    requires k <= |values|
    ensures DistinctByKey(values[..k]) <= DistinctByKey(values)
    decreases |values|
  {
    if k < |values| {
      var init := values[..|values| - 1];
      DistinctByKeyGrows(init, k);
      assert init[..k] == values[..k];
    } else {
      assert values[..k] == values;
    }
  }

  /** Blanks and line breaks are white space; letters and digits are not. */
  lemma WhatIsSpace(c: char)
    ensures IsSpace(' ') && IsSpace('\t') && IsSpace('\n') && IsSpace('\r')
    ensures '!' <= c <= '~' ==> !IsSpace(c)
  {
  }

  ghost predicate AllSpace(s: string) { forall i :: 0 <= i < |s| ==> IsSpace(s[i]) }

  lemma {:induction false} StripLeftDrops(s: string) returns (front: string)
    ensures s == front + StripLeft(s) && AllSpace(front)
    ensures StripLeft(s) != "" ==> !IsSpace(StripLeft(s)[0])
  {
    if s != "" && IsSpace(s[0]) {
      var rest := StripLeftDrops(s[1..]);
      front := [s[0]] + rest;
    } else {
      front := "";
    }
  }

  lemma {:induction false} StripRightDrops(s: string) returns (back: string)
    ensures s == StripRight(s) + back && AllSpace(back)
    ensures StripRight(s) != "" ==> !IsSpace(StripRight(s)[|StripRight(s)| - 1])
  {
    if s != "" && IsSpace(s[|s| - 1]) {
      var init, last := s[..|s| - 1], s[|s| - 1];
      var rest := StripRightDrops(init);
      back := rest + [last];
      assert StripRight(s) == StripRight(init) && s == init + [last] && IsSpace(last);
      hide StripRight, IsSpace, AllSpace;
      SpaceAdds(rest, last);
      Regroup(StripRight(init), rest, [last]);
    } else {
      back := "";
    }
  }

  lemma SpaceAdds(s: string, c: char)
    requires AllSpace(s) && IsSpace(c)
    ensures AllSpace(s + [c])
  {
    hide IsSpace;
  }

  lemma Regroup(a: string, b: string, c: string)
    ensures (a + b) + c == a + (b + c)
  {
  }

  /** Stripping takes the white space off both ends, and nothing else. */
  lemma StripTakesSpaceOff(s: string)
    ensures exists front, back :: AllSpace(front) && AllSpace(back) && s == front + Strip(s) + back
    ensures Strip(s) != "" ==> !IsSpace(Strip(s)[0]) && !IsSpace(Strip(s)[|Strip(s)| - 1])
  {
    var front := StripLeftDrops(s);
    var rest := StripLeft(s);
    var back := StripRightDrops(rest);
    hide StripLeft, StripRight, IsSpace, AllSpace;
    assert s == front + Strip(s) + back;
    if Strip(s) != "" { assert Strip(s)[0] == rest[0]; }
  }

  /** Two characters agree in lower case when they are one letter in upper and in lower case, and otherwise
      only when they are the same. */
  lemma LowerJoinsCases(c: char, d: char)
    ensures 'A' <= c <= 'Z' ==> 'a' <= LowerChar(c) <= 'z' && LowerChar(c) as int - 'a' as int == c as int - 'A' as int
    ensures !('A' <= c <= 'Z') ==> LowerChar(c) == c
  {
  }

  /** Drops repetitions and stops at the cap, which is looked at only after a result is added. */
  method Dedupe(values: seq<string>, maxResults: int) returns (out: seq<string>)
    ensures out == AtMost(DistinctByKey(values), if maxResults < 1 then 1 else maxResults)
  {
    var seen: set<string> := {};
    out := [];
    assert forall key :: !HasKey(out, key);
    hide Strip, Lower, HasKey, KeysDiffer;
    for i := 0 to |values|
      invariant out == DistinctByKey(values[..i]) && (out == [] || |out| < maxResults)
      invariant forall key :: key in seen <==> HasKey(out, key)
    {
      var key := Lower(Strip(values[i]));
      assert key == "" <==> Strip(values[i]) == "";
      assert values[..i + 1][..i] == values[..i];
      DistinctByKeyGrows(values, i + 1);
      if key != "" && key !in seen {
        KeyAdded(out, Strip(values[i]));
        seen := seen + {key};
        out := out + [Strip(values[i])];
        if |out| >= maxResults {
          return;
        }
      }
    }
    assert values[..|values|] == values;
  }

  lemma KeyAdded(out: seq<string>, v: string)
    ensures forall key :: HasKey(out + [v], key) <==> HasKey(out, key) || key == Lower(v)
  {
    hide Lower;
    forall key ensures HasKey(out + [v], key) <==> HasKey(out, key) || key == Lower(v) {
      if HasKey(out, key) {
        var i :| 0 <= i < |out| && Lower(out[i]) == key;
        assert (out + [v])[i] == out[i];
      }
      assert (out + [v])[|out|] == v;
    }
  }

  lemma DigitsStay(s: string)
    requires AllDigits(s)
    ensures Strip(s) == s && Lower(s) == s
  {
    assert StripLeft(s) == s;
  }

  lemma KeysAreThemselves(out: seq<string>, v: string)
    requires AllDigits(v) && forall i :: 0 <= i < |out| ==> AllDigits(out[i])
    ensures HasKey(out, Lower(v)) <==> v in out
  {
    hide Lower, AllDigits, Strip;
    DigitsStay(v);
    forall i | 0 <= i < |out| ensures Lower(out[i]) == out[i] { DigitsStay(out[i]); }
  }

  /** On codes the keys are the codes themselves. */
  lemma {:induction false} CodesAreTheirKeys(values: seq<string>)
    requires forall i :: 0 <= i < |values| ==> values[i] != "" && AllDigits(values[i])
    ensures DistinctByKey(values) == Distinct(values)
  {
    if values != [] {
      hide Strip, Lower, AllDigits, HasKey;
      var init := values[..|values| - 1];
      CodesAreTheirKeys(init);
      DigitsStay(values[|values| - 1]);
      forall i | 0 <= i < |Distinct(init)| ensures AllDigits(Distinct(init)[i]) {
        assert Distinct(init)[i] in Distinct(init);
        var k :| 0 <= k < |init| && init[k] == Distinct(init)[i];
        assert values[k] == init[k];
      }
      KeysAreThemselves(Distinct(init), values[|values| - 1]);
    }
  }

  const MAX_RESULTS: nat := 12

  /** The valid codes among the matches that start at `i` or later, in order. */
  ghost function ValidMatches(text: string, n: nat, i: nat): seq<string>
    decreases |text| - i
  {
    if i + n > |text| || i >= |text| then []
    else
      (if MatchesAt(text, i, n) && IsGtin(text[i..i + n]) then [text[i..i + n]] else [])
      + ValidMatches(text, n, i + 1)
  }

  /** What one pattern yields: the first twelve distinct valid codes, in order of occurrence. */
  ghost function Codes(text: string, n: nat): seq<string> {
    AtMost(Distinct(ValidMatches(text, n, 0)), MAX_RESULTS)
  }

  lemma {:induction false} SkipMatch(text: string, n: nat, i: nat, j: nat)
    requires n > 0 && MatchesAt(text, i, n) && i < j <= i + n
    ensures ValidMatches(text, n, j) == ValidMatches(text, n, i + n)
    decreases i + n - j
  {
    if j < i + n {
      assert text[i..i + n][j - 1 - i] == text[j - 1];
      assert !MatchesAt(text, j, n);
      SkipMatch(text, n, i, j + 1);
    }
  }

  lemma MatchStep(text: string, n: nat, i: nat)
    requires n > 0 && MatchesAt(text, i, n)
    ensures ValidMatches(text, n, i)
      == (if IsGtin(text[i..i + n]) then [text[i..i + n]] else []) + ValidMatches(text, n, i + n)
  {
    SkipMatch(text, n, i, i + 1);
  }

  lemma NoMatchStep(text: string, n: nat, i: nat)
    requires n > 0 && i + n <= |text| && !MatchesAt(text, i, n)
    ensures ValidMatches(text, n, i) == ValidMatches(text, n, i + 1)
  {
  }

  lemma AllFound(text: string, n: nat, i: nat)
    requires i + n > |text|
    ensures ValidMatches(text, n, i) == []
  {
  }

  /** Scans as the pattern does: past a match, or one character on. */
  method ExtractCodes(text: string, n: nat) returns (codes: seq<string>)
    requires n >= 8
    ensures codes == Codes(text, n)
  {
    hide ValidMatches, WeightedSum, Distinct;
    var found: seq<string> := [];
    var i := 0;
    while i + n <= |text|
      invariant found + ValidMatches(text, n, i) == ValidMatches(text, n, 0)
      invariant forall v :: v in found ==> v != "" && AllDigits(v)
      decreases |text| - i
    {
      if MatchesAt(text, i, n) {
        var code := text[i..i + n];
        var valid := GtinChecksumValid(code);
        MatchStep(text, n, i);
        var more := if valid then [code] else [];
        assert (found + more) + ValidMatches(text, n, i + n) == found + (more + ValidMatches(text, n, i + n));
        found := found + more;
        i := i + n;
      } else {
        NoMatchStep(text, n, i);
        i := i + 1;
      }
    }
    AllFound(text, n, i);
    assert found + [] == found;
    assert forall i :: 0 <= i < |found| ==> found[i] in found;
    CodesAreTheirKeys(found);
    codes := Dedupe(found, MAX_RESULTS);
  }

  ghost predicate OccursFrom(text: string, n: nat, i: nat, code: string) {
    exists j: nat :: i <= j && MatchesAt(text, j, n) && text[j..j + n] == code
  }

  lemma OccursNext(text: string, n: nat, i: nat, code: string)
    ensures OccursFrom(text, n, i, code)
      <==> (MatchesAt(text, i, n) && text[i..i + n] == code) || OccursFrom(text, n, i + 1, code)
  {
  }

  lemma {:induction false} ValidMatchIsExact(text: string, n: nat, i: nat, code: string)
    requires n > 0
    ensures code in ValidMatches(text, n, i) <==> IsGtin(code) && OccursFrom(text, n, i, code)
    decreases |text| - i
  {
    hide IsGtin;
    if i + n <= |text| {
      ValidMatchIsExact(text, n, i + 1, code);
      OccursNext(text, n, i, code);
    }
  }

  /** Every code found is a maximal run of `n` digits with a right check digit, found once; and all of
      them are found unless there are more than twelve. */
  lemma CodesAreExact(text: string, n: nat)
    requires n >= 8
    ensures var codes := Codes(text, n);
      && NoDuplicates(codes) && |codes| <= MAX_RESULTS
      && (forall c :: c in codes ==> OccursFrom(text, n, 0, c) && IsGtin(c) && |c| == n)
      && (|codes| < MAX_RESULTS ==> forall c :: OccursFrom(text, n, 0, c) && IsGtin(c) ==> c in codes)
  {
    hide ValidMatches, IsGtin;
    var codes := Codes(text, n);
    forall c | c in ValidMatches(text, n, 0) ensures OccursFrom(text, n, 0, c) && IsGtin(c) && |c| == n {
      ValidMatchIsExact(text, n, 0, c);
    }
    if |codes| < MAX_RESULTS {
      forall c | OccursFrom(text, n, 0, c) && IsGtin(c) ensures c in codes {
        ValidMatchIsExact(text, n, 0, c);
      }
    }
  }

  /** A run of digits longer or shorter than the code holds no code: the scan takes whole runs only. */
  lemma WholeRunsOnly(text: string, n: nat, code: string)
    requires AllDigits(text) && |text| != n > 0
    ensures Codes(text, n) == []
  {
    NoRunMatches(text, n, 0);
    hide ValidMatches;
    assert Distinct<string>([]) == [];
  }

  lemma {:induction false} NoRunMatches(text: string, n: nat, i: nat)
    requires AllDigits(text) && |text| != n > 0 && i <= |text|
    ensures ValidMatches(text, n, i) == []
    decreases |text| - i
  {
    if i < |text| { NoRunMatches(text, n, i + 1); }
  }

  lemma CodesAreDigits(text: string, all: seq<string>)
    requires all == Codes(text, 14) + Codes(text, 13) + Codes(text, 12)
    ensures forall i :: 0 <= i < |all| ==> all[i] != "" && AllDigits(all[i])
  {
    CodesAreExact(text, 14);
    CodesAreExact(text, 13);
    CodesAreExact(text, 12);
    hide Codes, OccursFrom, WeightedSum;
    forall i | 0 <= i < |all| ensures IsGtin(all[i]) {
      assert all[i] in Codes(text, 14) || all[i] in Codes(text, 13) || all[i] in Codes(text, 12);
    }
  }

  /** The (upc, ean, gtin) lists of a text. */
  method ExtractBarcodes(text: string) returns (upc: seq<string>, ean: seq<string>, gtin: seq<string>)
    ensures upc == Codes(text, 12) && ean == Codes(text, 13)
    ensures gtin == AtMost(Codes(text, 14) + ean + upc, MAX_RESULTS)
  {
    var gtin14 := ExtractCodes(text, 14);
    ean := ExtractCodes(text, 13);
    upc := ExtractCodes(text, 12);
    CodesAreExact(text, 14);
    CodesAreExact(text, 13);
    CodesAreExact(text, 12);
    hide Codes, IsGtin;
    ListsAreDisjoint(gtin14, ean, upc);
    CodesAreDigits(text, gtin14 + ean + upc);
    CodesAreTheirKeys(gtin14 + ean + upc);
    gtin := Dedupe(gtin14 + ean + upc, MAX_RESULTS);
  }

  /** The gtin list is cut at twelve codes, so it holds every upc and every ean exactly when the three
      lists together have at most twelve codes, or there is neither a upc nor an ean. */
  lemma GtinListsAllIff(text: string)
    ensures var (gtin14, ean, upc) := (Codes(text, 14), Codes(text, 13), Codes(text, 12));
      (forall v :: v in upc || v in ean ==> v in AtMost(gtin14 + ean + upc, MAX_RESULTS))
        <==> (|gtin14| + |ean| + |upc| <= MAX_RESULTS || (upc == [] && ean == []))
  {
    CodesAreExact(text, 14);
    CodesAreExact(text, 13);
    CodesAreExact(text, 12);
    hide Codes;
    ListsAreDisjoint(Codes(text, 14), Codes(text, 13), Codes(text, 12));
    CutLosesTheTail(Codes(text, 14), Codes(text, 13), Codes(text, 12));
  }

  lemma ListsAreDisjoint(a: seq<string>, b: seq<string>, c: seq<string>)
    requires NoDuplicates(a) && NoDuplicates(b) && NoDuplicates(c)
    requires forall v :: v in a ==> |v| == 14
    requires forall v :: v in b ==> |v| == 13
    requires forall v :: v in c ==> |v| == 12
    ensures NoDuplicates(a + b + c) && Distinct(a + b + c) == a + b + c
  {
    var all := a + b + c;
    forall i, j | 0 <= i < j < |all| ensures all[i] != all[j] {
      assert i < |a| ==> all[i] == a[i] && a[i] in a;
      assert j < |a| ==> all[j] == a[j];
      assert |a| <= i < |a| + |b| ==> all[i] == b[i - |a|] && b[i - |a|] in b;
      assert |a| <= j < |a| + |b| ==> all[j] == b[j - |a|] && b[j - |a|] in b;
      assert |a| + |b| <= i ==> all[i] == c[i - |a| - |b|];
      assert |a| + |b| <= j ==> all[j] == c[j - |a| - |b|] && c[j - |a| - |b|] in c;
    }
    DistinctOfDistinct(all);
  }

  lemma CutLosesTheTail(a: seq<string>, b: seq<string>, c: seq<string>)
    requires NoDuplicates(a + b + c) && |a| <= MAX_RESULTS
    ensures (forall v :: v in c || v in b ==> v in AtMost(a + b + c, MAX_RESULTS))
        <==> (|a| + |b| + |c| <= MAX_RESULTS || (c == [] && b == []))
  {
    var all := a + b + c;
    if |all| > MAX_RESULTS && (c != [] || b != []) {
      var last := all[|all| - 1];
      assert last in c || last in b;
      assert last !in AtMost(all, MAX_RESULTS);
    }
  }

  /** Every extracted UPC zero-pads to a valid EAN-13 and a valid GTIN-14. */
  lemma UpcPadsToEanAndGtin(text: string, upc: string)
    requires upc in Codes(text, 12)
    ensures IsGtin(Zeros(1) + upc) && |Zeros(1) + upc| == 13
    ensures IsGtin(Zeros(2) + upc) && |Zeros(2) + upc| == 14
  {
    CodesAreExact(text, 12);
    ZeroPaddingKeepsValidity(upc, 1);
    ZeroPaddingKeepsValidity(upc, 2);
  }

  // ---------------------------------------------------------------- an example

  function CodeTail(i: nat): (s: string)
    requires i < 100
    ensures |s| == 3 && AllDigits(s)
  {
    [DigitChar(i / 10), DigitChar(i % 10), DigitChar((10 - (i / 10 + 3 * (i % 10)) % 10) % 10)]
  }

  /** A valid thirteen-digit code for every number below 100. */
  function SampleCode(i: nat): (s: string)
    requires i < 100
    ensures |s| == 13
  {
    Zeros(10) + CodeTail(i)
  }

  lemma {:induction false} ZerosAddNothing(code: string, zeros: nat)
    requires AllDigits(code)
    ensures AllDigits(Zeros(zeros) + code) && WeightedSum(Zeros(zeros) + code) == WeightedSum(code)
  {
    var padded := Zeros(zeros) + code;
    if zeros == 0 {
      assert padded == code;
    } else {
      ZerosAddNothing(code, zeros - 1);
      assert padded[1..] == Zeros(zeros - 1) + code && padded[0] == '0';
    }
  }

  lemma SumOfThree(s: string)
    requires |s| == 3 && AllDigits(s)
    ensures WeightedSum(s) == Digit(s[0]) + 3 * Digit(s[1]) + Digit(s[2])
  {
    assert s[1..][1..] == [s[2]] && s[1..][1..][1..] == "";
    assert WeightedSum(s[1..][1..]) == Digit(s[2]);
    assert WeightedSum(s[1..]) == 3 * Digit(s[1]) + Digit(s[2]);
  }

  lemma SampleIsValid(i: nat)
    requires i < 100
    ensures IsGtin(SampleCode(i))
  {
    var s := CodeTail(i);
    ZerosAddNothing(s, 10);
    SumOfThree(s);
    hide WeightedSum, Zeros;
    CompletesToTen(i / 10 + 3 * (i % 10), Digit(s[2]));
  }

  /** Eight digits are the least that make a code: the same digits less one leading zero are none. */
  lemma EightDigitsAtLeast(i: nat)
    requires i < 100
    ensures |Zeros(5) + CodeTail(i)| == 8 && IsGtin(Zeros(5) + CodeTail(i))
    ensures |Zeros(4) + CodeTail(i)| == 7 && !IsGtin(Zeros(4) + CodeTail(i))
  {
    var s := CodeTail(i);
    ZerosAddNothing(s, 5);
    SumOfThree(s);
    hide WeightedSum, Zeros;
    CompletesToTen(i / 10 + 3 * (i % 10), Digit(s[2]));
  }

  lemma SamplesDiffer(i: nat, j: nat)
    requires i < j < 100
    ensures SampleCode(i) != SampleCode(j)
  {
    assert SampleCode(i)[10] == CodeTail(i)[0] && SampleCode(i)[11] == CodeTail(i)[1];
    assert SampleCode(j)[10] == CodeTail(j)[0] && SampleCode(j)[11] == CodeTail(j)[1];
    assert i == 10 * Digit(CodeTail(i)[0]) + Digit(CodeTail(i)[1]);
    assert j == 10 * Digit(CodeTail(j)[0]) + Digit(CodeTail(j)[1]);
  }

  /** The first `n` codes, a space after each. */
  function SampleText(n: nat): (text: string)
    requires n <= 100
    ensures |text| == 14 * n
  {
    if n == 0 then "" else SampleText(n - 1) + SampleCode(n - 1) + " "
  }

  lemma {:induction false} SampleEndsInSpace(n: nat)
    requires 0 < n <= 100
    ensures SampleText(n)[14 * n - 1] == ' '
  {
  }

  lemma RunBetween(text: string, n: nat, code: string)
    requires n + |code| < |text| && text[n..n + |code|] == code && AllDigits(code)
    requires (n > 0 ==> text[n - 1] == ' ') && text[n + |code|] == ' '
    ensures MatchesAt(text, n, |code|)
  {
  }

  /** Each code is a maximal run of thirteen digits, whatever follows. */
  lemma {:induction false} SampleOccurs(n: nat, rest: string, i: nat)
    requires i < n <= 100
    ensures MatchesAt(SampleText(n) + rest, 14 * i, 13)
    ensures (SampleText(n) + rest)[14 * i..14 * i + 13] == SampleCode(i)
  {
    hide SampleCode, MatchesAt, AllDigits;
    var text := SampleText(n) + rest;
    if i < n - 1 {
      var more := SampleCode(n - 1) + " " + rest;
      assert text == SampleText(n - 1) + more;
      SampleOccurs(n - 1, more, i);
    } else {
      assert text == SampleText(i) + (SampleCode(i) + (" " + rest));
      SampleIsValid(i);
      if i > 0 { SampleEndsInSpace(i); }
      hide SampleText;
      assert text[14 * i..14 * i + 13] == SampleCode(i);
      assert i > 0 ==> text[14 * i - 1] == SampleText(i)[14 * i - 1];
      RunBetween(text, 14 * i, SampleCode(i));
    }
  }

  lemma SampleIsFound(text: string, i: nat)
    requires text == SampleText(12) + Zeros(12) && i < 12 && |Codes(text, 13)| < MAX_RESULTS
    ensures SampleCode(i) in Codes(text, 13)
  {
    hide Codes, MatchesAt, SampleText, SampleCode, IsGtin;
    CodesAreExact(text, 13);
    SampleOccurs(12, Zeros(12), i);
    SampleIsValid(i);
    assert OccursFrom(text, 13, 0, SampleCode(i));
  }

  function Samples(): (samples: seq<string>)
    ensures |samples| == 12 && forall i :: 0 <= i < 12 ==> samples[i] == SampleCode(i)
  {
    seq(12, i requires 0 <= i < 12 => SampleCode(i))
  }

  lemma NoFewer(samples: seq<string>, codes: seq<string>)
    requires NoDuplicates(samples) && NoDuplicates(codes) && forall i :: 0 <= i < |samples| ==> samples[i] in codes
    ensures |samples| <= |codes|
  {
    CountMembers(samples);
    CountMembers(codes);
    hide NoDuplicates;
    FewerMembers(Members(samples), Members(codes));
  }

  lemma SamplesAreDistinct()
    ensures NoDuplicates(Samples())
  {
    hide SampleCode;
    forall i, j | 0 <= i < j < 12 ensures Samples()[i] != Samples()[j] { SamplesDiffer(i, j); }
  }

  lemma CodesAreDistinct(text: string)
    ensures NoDuplicates(Codes(text, 13)) && |Codes(text, 13)| <= MAX_RESULTS
  {
    CodesAreExact(text, 13);
  }

  lemma TwelveFound(text: string)
    requires text == SampleText(12) + Zeros(12)
    ensures |Codes(text, 13)| == 12
  {
    hide Codes, SampleText, SampleCode, Zeros, NoDuplicates;
    CodesAreDistinct(text);
    SamplesAreDistinct();
    if |Codes(text, 13)| < 12 {
      forall i: nat | i < 12 ensures Samples()[i] in Codes(text, 13) { SampleIsFound(text, i); }
      hide Samples;
      NoFewer(Samples(), Codes(text, 13));
    }
  }

  lemma FewerMembers<T>(a: set<T>, b: set<T>)
    requires a <= b
    ensures |a| <= |b|
  {
    assert b == a + (b - a);
  }

  lemma LastRun(text: string, n: nat)
    requires |text| == n + 12 && n > 0 && text[n - 1] == ' ' && text[n..] == Zeros(12)
    ensures MatchesAt(text, n, 12) && text[n..n + 12] == Zeros(12)
  {
    assert text[n..n + 12] == text[n..];
  }

  lemma TwelveZeros()
    ensures IsGtin(Zeros(12)) && |Zeros(12)| == 12
  {
    ZerosAddNothing("", 12);
    assert Zeros(12) + "" == Zeros(12);
  }

  lemma UpcFound(text: string)
    requires text == SampleText(12) + Zeros(12)
    ensures Codes(text, 12) != []
  {
    CodesAreExact(text, 12);
    hide Codes;
    TwelveZeros();
    SampleEndsInSpace(12);
    hide SampleText, WeightedSum, Zeros, IsGtin;
    var n := 168;
    assert |SampleText(12)| == n && text[n - 1] == SampleText(12)[n - 1] && text[n..] == Zeros(12);
    LastRun(text, n);
    hide MatchesAt;
    assert OccursFrom(text, 12, 0, Zeros(12));
  }

  /** A text with twelve EANs and one UPC: the merged list cannot hold them all. */
  lemma MergedListCanLoseCodes()
    ensures var text := SampleText(12) + Zeros(12);
      var merged := AtMost(Codes(text, 14) + Codes(text, 13) + Codes(text, 12), MAX_RESULTS);
      exists v :: (v in Codes(text, 12) || v in Codes(text, 13)) && v !in merged
  {
    hide Codes, SampleText;
    var text := SampleText(12) + Zeros(12);
    TwelveFound(text);
    UpcFound(text);
    GtinListsAllIff(text);
  }
}
