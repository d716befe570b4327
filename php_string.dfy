/** The two PHP string behaviours the backend relies on: `trim` with its
    default character set, and the falsiness test `!$x` on a string. */
module PhpString {

  /** The characters PHP's `trim` strips by default:
      space, tab, line feed, carriage return, NUL and vertical tab. */
  predicate IsTrimChar(c: char) {
    c == ' ' || c == '\t' || c == '\n' || c == '\r' || c == '\0' || c == 11 as char
  }

  /** Every character of `s` is one that `trim` strips. */
  predicate AllTrimChars(s: string) {
    forall i :: 0 <= i < |s| ==> IsTrimChar(s[i])
  }

  /** `s` neither starts nor ends with a character `trim` strips. */
  predicate IsTrimmed(s: string) {
    s == [] || (!IsTrimChar(s[0]) && !IsTrimChar(s[|s| - 1]))
  }

  /** `ltrim`: drop leading trim characters. */
  function TrimLeft(s: string): (r: string)
    ensures |r| <= |s|
    ensures r == [] || !IsTrimChar(r[0])
    decreases |s|
  {
    if |s| > 0 && IsTrimChar(s[0]) then TrimLeft(s[1..]) else s
  }

  /** `rtrim`: drop trailing trim characters. */
  function TrimRight(s: string): (r: string)
    ensures |r| <= |s|
    ensures r == [] || !IsTrimChar(r[|r| - 1])
    decreases |s|
  {
    if |s| > 0 && IsTrimChar(s[|s| - 1]) then TrimRight(s[..|s| - 1]) else s
  }

  /** `ltrim` leaves a suffix that does not start with a trim character, and
      everything it dropped is a trim character. */
  lemma {:induction false} TrimLeftShape(s: string)
    ensures var r := TrimLeft(s);
      && |r| <= |s| && r == s[|s| - |r|..]
      && AllTrimChars(s[..|s| - |r|])
      && (r == [] || !IsTrimChar(r[0]))
    decreases |s|
  {
    if |s| > 0 && IsTrimChar(s[0]) {
      var t := s[1..];
      TrimLeftShape(t);
      var r := TrimLeft(t);
      assert TrimLeft(s) == r;
      var k := |t| - |r|;
      assert r == s[k + 1..] by {
        assert r == t[k..];
        assert t[k..] == s[k + 1..];
      }
      assert AllTrimChars(s[..k + 1]) by {
        assert s[..k + 1] == [s[0]] + t[..k];
        PrependTrimChar(s[0], t[..k]);
      }
    }
  }

  /** A trim character in front of trim characters. */
  lemma PrependTrimChar(c: char, t: string)
    requires IsTrimChar(c) && AllTrimChars(t)
    ensures AllTrimChars([c] + t)
  {
    assert forall i :: 0 < i <= |t| ==> ([c] + t)[i] == t[i - 1];
  }

  /** `rtrim` leaves a prefix that does not end with a trim character, and
      everything it dropped is a trim character. */
  lemma {:induction false} TrimRightShape(s: string)
    ensures var r := TrimRight(s);
      && |r| <= |s| && r == s[..|r|]
      && AllTrimChars(s[|r|..])
      && (r == [] || !IsTrimChar(r[|r| - 1]))
    decreases |s|
  {
    if |s| > 0 && IsTrimChar(s[|s| - 1]) {
      var t := s[..|s| - 1];
      TrimRightShape(t);
      var r := TrimRight(s);
      assert t[..|r|] == s[..|r|];
      forall i | |r| <= i < |s| ensures IsTrimChar(s[i]) {
        if i < |s| - 1 {
          assert t[|r|..][i - |r|] == s[i];
        }
      }
    }
  }

  /** PHP `trim($s)`: nothing strippable is left at either end. */
  function Trim(s: string): (r: string)
    ensures IsTrimmed(r)
  {
    var l := TrimLeft(s);
    TrimLeftShape(s);
    var r := TrimRight(l);
    TrimRightShape(l);
    assert r != [] ==> r[0] == l[0];
    r
  }

  /** `trim` cuts `s` into stripped leading characters, a trimmed middle
      that it returns, and stripped trailing characters. */
  lemma TrimShape(s: string)
    ensures exists i, j :: 0 <= i <= j <= |s| && Trim(s) == s[i..j]
                          && AllTrimChars(s[..i]) && AllTrimChars(s[j..])
  {
    var l := TrimLeft(s);
    TrimLeftShape(s);
    var r := TrimRight(l);
    TrimRightShape(l);
    var i := |s| - |l|;
    var j := i + |r|;
    assert Trim(s) == r == l[..|r|];
    assert l == s[i..];
    assert l[..|r|] == s[i..j];
    assert s[j..] == l[|r|..];
  }

  /** A string with no strippable character at either end is its own trim. */
  lemma TrimOfTrimmed(s: string)
    requires IsTrimmed(s)
    ensures Trim(s) == s
  {
  }

  /** `trim` is idempotent. */
  lemma TrimIdempotent(s: string)
    ensures Trim(Trim(s)) == Trim(s)
  {
    TrimOfTrimmed(Trim(s));
  }

  /** A string made only of strippable characters trims to the empty string. */
  lemma {:induction false} TrimBlank(s: string)
    requires AllTrimChars(s)
    ensures TrimLeft(s) == [] && Trim(s) == []
    decreases |s|
  {
    if |s| > 0 {
      assert AllTrimChars(s[1..]) by {
        forall i | 0 <= i < |s| - 1 ensures IsTrimChar(s[1..][i]) {
          assert s[1..][i] == s[i + 1];
        }
      }
      TrimBlank(s[1..]);
    }
  }

  /** PHP's `!$x` for a string `$x`: true exactly for `""` and `"0"`. */
  predicate Falsy(s: string): (b: bool)
    ensures b ==> |s| <= 1
    ensures |s| == 1 ==> (b <==> s[0] == '0')
  {
    s == "" || s == "0"
  }
}
