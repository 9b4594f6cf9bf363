/**
 * The masking applied to a password before it is written to the audit log
 * (`maskPwd` in server/server.js): the first and last characters stay
 * visible, everything between them becomes `*`, and passwords of one or two
 * characters are masked completely.
 */
module Masking {

  const MaskChar: char := '*'

  /** `'*'.repeat(n)`: `n` copies of the mask character. */
  function Stars(n: nat): (r: string)
    ensures |r| == n
    ensures forall i :: 0 <= i < n ==> r[i] == MaskChar
  {
    if n == 0 then "" else Stars(n - 1) + [MaskChar]
  }

  /**
   * `maskPwd(pw)` for a string `pw`; the empty string is falsy and masks to
   * the empty string.
   */
  function MaskPwd(pw: string): (r: string)
    ensures |r| == |pw|
    ensures pw == "" ==> r == ""
    ensures |pw| <= 2 ==> forall i :: 0 <= i < |r| ==> r[i] == MaskChar
    ensures |pw| > 2 ==> r[0] == pw[0] && r[|r| - 1] == pw[|pw| - 1]
    ensures |pw| > 2 ==> forall i :: 0 < i < |r| - 1 ==> r[i] == MaskChar
  {
    if pw == "" then ""
    else if |pw| <= 2 then Stars(|pw|)
    else [pw[0]] + Stars(|pw| - 2) + [pw[|pw| - 1]]
  }

  /**
   * The mask reveals nothing but the length and (above two characters) the
   * first and last characters: two passwords that agree on those mask alike.
   */
  lemma MaskDependsOnlyOnEnds(a: string, b: string)
    requires |a| == |b|
    requires |a| > 2 ==> a[0] == b[0] && a[|a| - 1] == b[|b| - 1]
    ensures MaskPwd(a) == MaskPwd(b)
  {
    var ma, mb := MaskPwd(a), MaskPwd(b);
    assert |ma| == |mb|;
    forall i | 0 <= i < |ma| ensures ma[i] == mb[i] {
    }
  }

  /** Masking a mask changes nothing. */
  lemma MaskIdempotent(pw: string)
    ensures MaskPwd(MaskPwd(pw)) == MaskPwd(pw)
  {
    MaskDependsOnlyOnEnds(MaskPwd(pw), pw);
  }

}
