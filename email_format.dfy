/**
 * The e-mail format check `^[^\s@]+@[^\s@]+\.[^\s@]+$` shared by both
 * backends and the sign-up page, and the mask `replace(/(.{2}).+(@.+)/, '$1***$2')`
 * that the OTP replies apply to the address.
 */
module EmailFormat {
  import opened Text

  /** `[^\s@]` */
  predicate AddressChar(c: char) { !IsJsSpace(c) && c != '@' }

  predicate AllAddressChars(s: string) {
    forall i | 0 <= i < |s| :: AddressChar(s[i])
  }

  /**
   * The whole string matches `^[^\s@]+@[^\s@]+\.[^\s@]+$`: a non-empty local
   * part, one `@`, then a domain with a `.` that has a character on each side.
   */
  predicate ValidEmail(s: string) {
    exists at, dot | 0 < at < |s| && at + 1 < dot < |s| - 1 ::
      s[at] == '@' && s[dot] == '.' && AllAddressChars(s[..at]) && AllAddressChars(s[at + 1..])
  }

  /** Every string of the shape local@domain.tld with `[^\s@]+` parts is a valid e-mail. */
  lemma {:induction false} ValidEmailOfParts(local: string, domain: string, tld: string)
    requires |local| > 0 && |domain| > 0 && |tld| > 0
    requires AllAddressChars(local) && AllAddressChars(domain) && AllAddressChars(tld)
    ensures ValidEmail(local + "@" + domain + "." + tld)
  {
    var s := local + "@" + domain + "." + tld;
    var at, dot := |local|, |local| + 1 + |domain|;
    assert s[..at] == local;
    assert s[at + 1..] == domain + "." + tld;
    assert s[at] == '@' && s[dot] == '.';
  }

  /** A valid e-mail has exactly one `@`, and no white space or line terminator anywhere. */
  lemma {:induction false} ValidEmailShape(s: string) returns (at: nat)
    requires ValidEmail(s)
    ensures 0 < at && at + 3 < |s| && s[at] == '@'
    ensures forall i | 0 <= i < |s| && i != at :: s[i] != '@'
    ensures forall i | 0 <= i < |s| :: !IsJsSpace(s[i])
  {
    var a, dot :| 0 < a < |s| && a + 1 < dot < |s| - 1 &&
      s[a] == '@' && s[dot] == '.' && AllAddressChars(s[..a]) && AllAddressChars(s[a + 1..]);
    at := a;
    forall i | 0 <= i < |s| && i != at
      ensures s[i] != '@' && !IsJsSpace(s[i])
    {
      if i < at { assert s[..at][i] == s[i]; } else { assert s[at + 1..][i - at - 1] == s[i]; }
    }
  }

  // ---------------------------------------------------------------- mask

  /** The end of the run of non-line-terminators that starts at `p`: how far `.+` can reach. */
  function RunEnd(s: string, p: nat): (e: nat)
    requires p <= |s|
    ensures p <= e <= |s|
    ensures forall i | p <= i < e :: !IsLineTerminator(s[i])
    ensures e < |s| ==> IsLineTerminator(s[e])
    decreases |s| - p
  {
    if p == |s| || IsLineTerminator(s[p]) then p else RunEnd(s, p + 1)
  }

  /** The last index `k` with `lo <= k < hi` and `s[k] == '@'`, or -1. */
  function LastAtIn(s: string, lo: nat, hi: int): (k: int)
    requires hi <= |s|
    ensures k == -1 || (lo <= k < hi && s[k] == '@')
    ensures k == -1 ==> forall i | lo <= i < hi :: s[i] != '@'
    ensures k >= 0 ==> forall i | k < i < hi :: s[i] != '@'
    decreases hi - lo
  {
    if hi <= lo then -1
    else if s[hi - 1] == '@' then hi - 1
    else LastAtIn(s, lo, hi - 1)
  }

  /**
   * The replacement from the first start `p` where `(.{2}).+(@.+)` matches:
   * the greedy `.+` backs off to the last `@` of the line that leaves a
   * character after it and at least one character after the first two.
   */
  function MaskFrom(s: string, p: nat): string
    requires p <= |s|
    decreases |s| - p
  {
    if p == |s| then s
    else
      var k := LastAtIn(s, p + 3, RunEnd(s, p) - 1);
      if k >= 0 then s[..p + 2] + "***" + s[k..] else MaskFrom(s, p + 1)
  }

  function Mask(s: string): string {
    MaskFrom(s, 0)
  }

  /** Where no `@` lies at or after `p + 3`, nothing from `p` on matches and the string is kept. */
  lemma {:induction false} MaskFromNoMatch(s: string, p: nat)
    requires p <= |s|
    requires forall i | p + 3 <= i < |s| :: s[i] != '@'
    ensures MaskFrom(s, p) == s
    decreases |s| - p
  {
    if p < |s| {
      MaskFromNoMatch(s, p + 1);
    }
  }

  /**
   * On a valid e-mail the mask keeps the first two characters and the
   * `@domain`, and replaces what lies between by `***`, provided the local
   * part has at least three characters; a shorter address is left as it is.
   */
  lemma {:induction false} MaskValidEmail(s: string, at: nat)
    requires ValidEmail(s) && at < |s| && s[at] == '@'
    ensures at >= 3 ==> Mask(s) == s[..2] + "***" + s[at..]
    ensures at < 3 ==> Mask(s) == s
  {
    var a := ValidEmailShape(s);
    assert a == at;
    assert RunEnd(s, 0) == |s| by {
      if RunEnd(s, 0) < |s| {
        LineTerminatorIsSpace(s[RunEnd(s, 0)]);
      }
    }
    if at >= 3 {
      assert LastAtIn(s, 3, |s| - 1) == at;
    } else {
      assert LastAtIn(s, 3, |s| - 1) == -1;
      MaskFromNoMatch(s, 1);
    }
  }
}
