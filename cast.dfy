/**
 * `minutes` from nonstdlib/cast.py: a duration given either as a number of
 * minutes or as text such as "1h30", "1h" or "90m".
 */
module Cast {
  import opened Wrappers
  import opened Strings

  /** The argument of `minutes`: a Python `int`, or a string to be parsed. */
  datatype Duration = Count(n: int) | Text(s: string)

  /** The optional group `(\d+)?` after the `h`: its value, or 0 when it matched nothing. */
  function OptionalMinutes(rest: string): nat {
    var m := RunLength(rest, IsDigit);
    if m == 0 then 0 else DigitsValue(rest[..m])
  }

  /**
   * `minutes(x)`: an `int` is returned as it is. A string must start with
   * `(\d+)h(\d+)?` (hours and optional minutes) or `(\d+)m` (minutes);
   * anything after the match is ignored. Otherwise `ValueError` is raised.
   */
  function Minutes(x: Duration): (r: Result<int>)
    ensures x.Count? ==> r == Ok(x.n)
    ensures x.Text? && r.Ok? ==> r.value >= 0
    ensures r.Err? ==> r.error == ValueError
  {
    match x
    case Count(n) => Ok(n)
    case Text(s) =>
      var k := RunLength(s, IsDigit);
      if k == 0 || k == |s| || (s[k] != 'h' && s[k] != 'm') then Err(ValueError)
      else
        var n := DigitsValue(s[..k]);
        if s[k] == 'h' then Ok(60 * n + OptionalMinutes(s[k + 1..]))
        else Ok(n)
  }

  /** The unit letters the pattern accepts after the leading digits. */
  predicate IsUnit(c: char) {
    c == 'h' || c == 'm'
  }

  /** `s` begins with one or more digits followed by `h` or `m`: the pattern has a match. */
  predicate StartsWithDuration(s: string) {
    exists k :: 0 < k < |s| && AllDigits(s[..k]) && IsUnit(s[k])
  }

  /** A string is rejected exactly when it does not start with digits and a unit. */
  lemma MinutesRejects(s: string)
    ensures Minutes(Text(s)).Err? <==> !StartsWithDuration(s)
  {
    var k := RunLength(s, IsDigit);
    if StartsWithDuration(s) {
      var j :| 0 < j < |s| && AllDigits(s[..j]) && IsUnit(s[j]);
      assert forall i :: 0 <= i < j ==> s[..j][i] == s[i];
      RunLengthUnique(s, IsDigit, j);
    } else if 0 < k < |s| {
      assert AllDigits(s[..k]);
      assert !IsUnit(s[k]);
    }
  }

  /** The optional minutes group is the run of digits that starts `rest` (0 when there is none). */
  lemma OptionalMinutesAt(rest: string, m: nat)
    requires m <= |rest| && AllDigits(rest[..m]) && (m < |rest| ==> !IsDigit(rest[m]))
    ensures OptionalMinutes(rest) == DigitsValue(rest[..m])
  {
    assert forall j :: 0 <= j < m ==> rest[..m][j] == rest[j];
    RunLengthUnique(rest, IsDigit, m);
  }

  /** `k` digits followed by `h`: sixty minutes for each hour plus the optional minutes group. */
  lemma MinutesHoursAt(s: string, k: nat)
    requires 0 < k < |s| && AllDigits(s[..k]) && s[k] == 'h'
    ensures Minutes(Text(s)) == Ok(60 * DigitsValue(s[..k]) + OptionalMinutes(s[k + 1..]))
  {
    assert forall j :: 0 <= j < k ==> s[..k][j] == s[j];
    RunLengthUnique(s, IsDigit, k);
  }

  /**
   * `k` digits followed by `h` and then `m` digits (`m` may be 0): sixty
   * minutes for each hour plus the minutes; whatever follows is ignored and
   * the minutes are not range-checked.
   */
  lemma MinutesHoursMinutes(s: string, k: nat, m: nat)
    requires 0 < k < |s| && AllDigits(s[..k]) && s[k] == 'h'
    requires k + 1 + m <= |s| && AllDigits(s[k + 1..k + 1 + m])
    requires k + 1 + m < |s| ==> !IsDigit(s[k + 1 + m])
    ensures Minutes(Text(s)) == Ok(60 * DigitsValue(s[..k]) + DigitsValue(s[k + 1..k + 1 + m]))
  {
    MinutesHoursAt(s, k);
    var rest := s[k + 1..];
    assert rest[..m] == s[k + 1..k + 1 + m];
    OptionalMinutesAt(rest, m);
  }

  /** `k` digits followed by `m` give that many minutes, whatever follows. */
  lemma MinutesOnly(s: string, k: nat)
    requires 0 < k < |s| && AllDigits(s[..k]) && s[k] == 'm'
    ensures Minutes(Text(s)) == Ok(DigitsValue(s[..k]))
  {
    assert forall j :: 0 <= j < k ==> s[..k][j] == s[j];
    RunLengthUnique(s, IsDigit, k);
  }

  /** A bare number has no unit and is rejected. */
  lemma MinutesRejectsBareNumbers()
    ensures Minutes(Text("0")) == Err(ValueError)
    ensures Minutes(Text("90")) == Err(ValueError)
  {
    RunLengthUnique("0", IsDigit, 1);
    RunLengthUnique("90", IsDigit, 2);
  }
}
