/** The far-location note of an attendance row and the distance read back out
    of it (backend/src/statistics/statistics.service.ts, the far check-in
    report).

    The report keeps rows whose note contains `FarMarker` and reads the
    distance with the regular expression `\((\d+)m\)`: the first `(`, one or
    more ASCII digits, then `m)`. Because a digit is never `m`, a greedy digit
    run that is not followed by `m)` cannot be shortened into a match, so the
    expression matches at position `i` exactly when `MatchesAt(s, i)` holds,
    and `match` reports the leftmost such position. */
module LocationNotes {
  import opened Wrappers

  /** The text every far check-in note contains ("far from the classroom"). */
  const FarMarker: string := "xa lớp học"

  /** `sub` occurs in `s` starting at position `i`. */
  predicate OccursAt(s: string, sub: string, i: nat) {
    i + |sub| <= |s| && s[i..i + |sub|] == sub
  }

  /** `sub` occurs in `s` (the store's `contains` filter). */
  predicate Contains(s: string, sub: string) {
    exists i: nat :: i <= |s| && OccursAt(s, sub, i)
  }

  predicate IsDigit(c: char) {
    '0' <= c <= '9'
  }

  predicate AllDigits(s: string) {
    forall k :: 0 <= k < |s| ==> IsDigit(s[k])
  }

  /** The end of the run of digits that starts at `i`. */
  function DigitRunEnd(s: string, i: nat): (j: nat)
    requires i <= |s|
    ensures i <= j <= |s|
    ensures AllDigits(s[i..j])
    ensures j < |s| ==> !IsDigit(s[j])
    decreases |s| - i
  {
    if i < |s| && IsDigit(s[i]) then DigitRunEnd(s, i + 1) else i
  }

  /** The pattern `\((\d+)m\)` matches at position `i`. */
  predicate MatchesAt(s: string, i: nat) {
    && i < |s|
    && s[i] == '('
    && var j := DigitRunEnd(s, i + 1);
       j > i + 1 && j + 1 < |s| && s[j] == 'm' && s[j + 1] == ')'
  }

  /** `MatchesAt` is the regular expression's own condition: a `(`, then some
      non-empty run of digits followed by `m)`. Since `m` is not a digit, the
      greedy run `DigitRunEnd` is the only run that can be followed by it. */
  lemma MatchesAtIsPattern(s: string, i: nat)
    ensures MatchesAt(s, i) <==>
      && i < |s| && s[i] == '('
      && exists j :: i + 1 < j && j + 1 < |s| && AllDigits(s[i + 1..j]) && s[j] == 'm' && s[j + 1] == ')'
  {
    if i < |s| && s[i] == '(' {
      if MatchesAt(s, i) {
        var j := DigitRunEnd(s, i + 1);
        assert i + 1 < j && j + 1 < |s| && AllDigits(s[i + 1..j]) && s[j] == 'm' && s[j + 1] == ')';
      }
      forall j | i + 1 < j && j + 1 < |s| && AllDigits(s[i + 1..j]) && s[j] == 'm' && s[j + 1] == ')'
        ensures MatchesAt(s, i)
      {
        DigitRunEndOver(s, i + 1, j);
      }
    }
  }

  /** The value of a string of decimal digits, read left to right (`parseInt`). */
  function ParseDecimal(digits: string): nat
    requires AllDigits(digits)
  {
    if digits == [] then 0
    else
      var n := |digits| - 1;
      10 * ParseDecimal(digits[..n]) + (digits[n] as int - '0' as int)
  }

  /** The captured digits of a match at `i`, as a number. */
  function CaptureAt(s: string, i: nat): nat
    requires i < |s|
  {
    ParseDecimal(s[i + 1..DigitRunEnd(s, i + 1)])
  }

  /** The capture of the leftmost match at or after `i`, or 0 when there is none. */
  function FirstMatchFrom(s: string, i: nat): nat
    decreases |s| - i
  {
    if i >= |s| then 0
    else if MatchesAt(s, i) then CaptureAt(s, i)
    else FirstMatchFrom(s, i + 1)
  }

  /** The pattern matches nowhere in `[i, k)`. */
  predicate NoMatchBetween(s: string, i: nat, k: nat) {
    forall m :: i <= m < k ==> !MatchesAt(s, m)
  }

  /** `k` is the leftmost position at or after `i` where the pattern matches. */
  predicate LeftmostMatch(s: string, i: nat, k: nat) {
    i <= k < |s| && MatchesAt(s, k) && NoMatchBetween(s, i, k)
  }

  /** `FirstMatchFrom` reads the leftmost match, and gives 0 without one. */
  lemma {:induction false} FirstMatchIsLeftmost(s: string, i: nat)
    ensures forall k :: LeftmostMatch(s, i, k) ==> FirstMatchFrom(s, i) == CaptureAt(s, k)
    ensures NoMatchBetween(s, i, |s|) ==> FirstMatchFrom(s, i) == 0
    decreases |s| - i
  {
    if i < |s| && !MatchesAt(s, i) {
      FirstMatchIsLeftmost(s, i + 1);
      forall k | LeftmostMatch(s, i, k)
        ensures LeftmostMatch(s, i + 1, k)
      {
      }
    }
  }

  /** The distance, in metres, that a far check-in note records; 0 when the
      note is null or holds no `(<digits>m)`. */
  function ExtractDistance(note: Option<string>): (d: nat)
    ensures note.None? ==> d == 0
    ensures note.Some? ==> forall k :: LeftmostMatch(note.value, 0, k) ==> d == CaptureAt(note.value, k)
    ensures note.Some? && NoMatchBetween(note.value, 0, |note.value|) ==> d == 0
  {
    match note
    case None => 0
    case Some(s) => FirstMatchIsLeftmost(s, 0); FirstMatchFrom(s, 0)
  }

  /** The decimal digits of `n`, without leading zeros. */
  function Decimal(n: nat): (s: string)
    ensures |s| > 0 && AllDigits(s)
  {
    if n < 10 then [('0' as int + n) as char]
    else Decimal(n / 10) + [('0' as int + n % 10) as char]
  }

  lemma {:induction false} ParseDecimalOfDecimal(n: nat)
    ensures ParseDecimal(Decimal(n)) == n
  {
    var s := Decimal(n);
    if n >= 10 {
      assert s[..|s| - 1] == Decimal(n / 10);
      ParseDecimalOfDecimal(n / 10);
    }
  }

  /** The annotation `(<n>m)` that records a distance of `n` metres. */
  function DistanceTag(n: nat): string {
    "(" + Decimal(n) + "m)"
  }

  /** Reading a tagged note gives back the tagged distance, provided no `(`
      comes before the tag. */
  lemma ExtractTagged(prefix: string, n: nat, suffix: string)
    requires forall k :: 0 <= k < |prefix| ==> prefix[k] != '('
    ensures ExtractDistance(Some(prefix + DistanceTag(n) + suffix)) == n
  {
    var s := prefix + DistanceTag(n) + suffix;
    var digits := Decimal(n);
    var i := |prefix|;
    var j := i + 1 + |digits|;
    assert s[i] == '(';
    assert s[i + 1..j] == digits;
    assert s[j] == 'm' && s[j + 1] == ')';
    assert DigitRunEnd(s, i + 1) == j by {
      DigitRunEndOver(s, i + 1, j);
    }
    ParseDecimalOfDecimal(n);
    assert CaptureAt(s, i) == n;
    forall m | 0 <= m < i
      ensures !MatchesAt(s, m)
    {
      assert s[m] == prefix[m];
    }
  }

  /** A digit run that ends at a non-digit ends exactly there. */
  lemma {:induction false} DigitRunEndOver(s: string, i: nat, j: nat)
    requires i <= j < |s|
    requires AllDigits(s[i..j]) && !IsDigit(s[j])
    ensures DigitRunEnd(s, i) == j
    decreases j - i
  {
    if i < j {
      assert IsDigit(s[i..j][0]);
      assert s[i + 1..j] == s[i..j][1..];
      DigitRunEndOver(s, i + 1, j);
    }
  }

  /** The note the attendance recorder writes for a check-in `n` metres away. */
  function FarNote(n: nat): string {
    "Vị trí " + FarMarker + " " + DistanceTag(n)
  }

  /** A far note is picked up by the report's filter and yields its distance. */
  lemma FarNoteRoundTrip(n: nat)
    ensures Contains(FarNote(n), FarMarker)
    ensures ExtractDistance(Some(FarNote(n))) == n
  {
    var lead := "Vị trí ";
    var s := FarNote(n);
    assert s[|lead|..|lead| + |FarMarker|] == FarMarker;
    assert OccursAt(s, FarMarker, |lead|);
    ExtractTagged(lead + FarMarker + " ", n, "");
    assert lead + FarMarker + " " + DistanceTag(n) + "" == s;
  }
}
