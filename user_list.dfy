/** The user list's password masking. */
module UserList {

  /** `'*'.repeat(n)`. */
  function Stars(n: nat): (r: string)
    ensures |r| == n && forall i :: 0 <= i < n ==> r[i] == '*'
  {
    seq(n, _ => '*')
  }

  function Max(a: int, b: int): int {
    if a >= b then a else b
  }

  /** `maskPassword`: short passwords become three stars; longer ones keep
      their first two characters and star the rest, with at least three stars. */
  function MaskPassword(password: string): (r: string)
    ensures |password| <= 3 ==> r == "***"
    ensures |password| > 3 ==> |r| == 2 + Max(3, |password| - 2) && r[..2] == password[..2]
    ensures |r| >= 3 && forall i :: 2 <= i < |r| ==> r[i] == '*'
  {
    if password == [] then "***"
    else if |password| <= 3 then "***"
    else password[..2] + Stars(Max(3, |password| - 2))
  }

  /** From five characters on, the mask is as long as the password; a
      four-character password masks to five characters. */
  lemma MaskLength(password: string)
    ensures |password| >= 5 ==> |MaskPassword(password)| == |password|
    ensures |password| == 4 ==> |MaskPassword(password)| == 5
    ensures |password| <= 3 ==> |MaskPassword(password)| == 3
  {
  }

  /** Nothing past the second character reaches the output: passwords of
      equal length that agree on their first two characters mask alike. */
  lemma MaskHidesTail(p: string, q: string)
    requires |p| == |q|
    requires |p| > 3 ==> p[..2] == q[..2]
    ensures MaskPassword(p) == MaskPassword(q)
  {
  }
}
