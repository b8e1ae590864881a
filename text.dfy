/**
 * String primitives the page's lookups are built from: JavaScript's
 * `String.prototype.includes`, `toLowerCase` restricted to what it does to
 * the characters that occur here, and the decimal rendering that template
 * literals apply to numbers.
 */
module Text {

  /** `k` occurs in `s` starting at position `i`. */
  predicate OccursAt(s: string, k: string, i: int) {
    0 <= i <= |s| - |k| && s[i..i + |k|] == k
  }

  /** `s.includes(k)`: `k` occurs somewhere in `s` (the empty string occurs everywhere). */
  predicate Contains(s: string, k: string)
    ensures |k| == 0 ==> Contains(s, k)
  {
    assert |k| == 0 ==> OccursAt(s, k, 0);
    exists i | 0 <= i <= |s| - |k| :: OccursAt(s, k, i)
  }

  /** Containment is transitive: an occurrence of `m` carries every occurrence inside `m` along. */
  lemma ContainsTransitive(s: string, m: string, k: string)
    requires Contains(s, m) && Contains(m, k)
    ensures Contains(s, k)
  {
    var i :| 0 <= i <= |s| - |m| && OccursAt(s, m, i);
    var j :| 0 <= j <= |m| - |k| && OccursAt(m, k, j);
    forall t | 0 <= t < |k| ensures s[i + j + t] == k[t] {
      assert s[i + j + t] == s[i..i + |m|][j + t];
      assert m[j + t] == m[j..j + |k|][t];
    }
    assert s[i + j..i + j + |k|] == k;
    assert OccursAt(s, k, i + j);
  }

  /** A string that lacks one of `k`'s characters cannot contain `k`. */
  lemma AbsentChar(s: string, k: string, c: char)
    requires c in k && c !in s
    ensures !Contains(s, k)
  {
  }

  /** A string is never contained in a shorter one. */
  lemma LongerNotContained(s: string, k: string)
    requires |s| < |k|
    ensures !Contains(s, k)
  {
  }

  predicate IsAsciiUpper(c: char) {
    'A' <= c <= 'Z'
  }

  predicate IsAsciiLower(c: char) {
    'a' <= c <= 'z'
  }

  /** No character of `k` is an ASCII letter; true of every Arabic keyword and emoji. */
  predicate NoAsciiLetters(k: string) {
    forall c | c in k :: !IsAsciiUpper(c) && !IsAsciiLower(c)
  }

  function LowerChar(c: char): (d: char)
    ensures IsAsciiUpper(c) ==> IsAsciiLower(d)
    ensures !IsAsciiUpper(c) ==> d == c
  {
    if IsAsciiUpper(c) then (c as int + 32) as char else c
  }

  /**
   * `toLowerCase` on the characters that matter here: ASCII capitals become
   * small letters, every other character (Arabic has no case) is kept.
   */
  function ToLower(s: string): (r: string)
    ensures |r| == |s|
    ensures forall i :: 0 <= i < |s| ==> r[i] == LowerChar(s[i])
  {
    if |s| == 0 then [] else [LowerChar(s[0])] + ToLower(s[1..])
  }

  /**
   * Lower-casing the input never changes whether a keyword without ASCII
   * letters occurs in it: a character that lowering changes is an ASCII
   * letter before and after, so it matches no character of the keyword.
   */
  lemma ContainsIgnoresCase(s: string, k: string)
    requires NoAsciiLetters(k)
    ensures Contains(ToLower(s), k) <==> Contains(s, k)
  {
    var t := ToLower(s);
    if Contains(s, k) {
      var i :| 0 <= i <= |s| - |k| && OccursAt(s, k, i);
      forall j | 0 <= j < |k| ensures t[i + j] == k[j] {
        assert s[i + j] == s[i..i + |k|][j];
        assert k[j] in k;
      }
      assert t[i..i + |k|] == k;
      assert OccursAt(t, k, i);
    }
    if Contains(t, k) {
      var i :| 0 <= i <= |t| - |k| && OccursAt(t, k, i);
      forall j | 0 <= j < |k| ensures s[i + j] == k[j] {
        assert t[i + j] == t[i..i + |k|][j];
        assert k[j] in k;
      }
      assert s[i..i + |k|] == k;
      assert OccursAt(s, k, i);
    }
  }

  function Digit(d: nat): (c: char)
    requires d < 10
    ensures '0' <= c <= '9'
  {
    (d + '0' as int) as char
  }

  function NatToString(n: nat): (r: string)
    ensures |r| > 0
    ensures forall c | c in r :: '0' <= c <= '9'
  {
    if n < 10 then [Digit(n)] else NatToString(n / 10) + [Digit(n % 10)]
  }

  /** The decimal text a template literal gives an integer. */
  function IntToString(n: int): (r: string)
    ensures |r| > 0
    ensures n >= 0 ==> forall c | c in r :: '0' <= c <= '9'
  {
    if n < 0 then "-" + NatToString(-n) else NatToString(n)
  }

  /** The number a string of decimal digits denotes, most significant digit first. */
  function DecimalValue(s: string): nat
    requires forall c | c in s :: '0' <= c <= '9'
  {
    if |s| == 0 then 0
    else
      var init := s[..|s| - 1];
      assert s[|s| - 1] in s;
      assert forall c | c in init :: '0' <= c <= '9' by {
        forall c | c in init ensures '0' <= c <= '9' {
          var i :| 0 <= i < |init| && init[i] == c;
          assert s[i] == c && s[i] in s;
        }
      }
      10 * DecimalValue(init) + (s[|s| - 1] as int - '0' as int)
  }

  /** Rendering a natural number gives its decimal digits, with no leading zero. */
  lemma {:induction false} NatToStringDenotes(n: nat)
    ensures DecimalValue(NatToString(n)) == n
    ensures NatToString(n)[0] == '0' ==> n == 0
  {
    var r := NatToString(n);
    if n >= 10 {
      NatToStringDenotes(n / 10);
      var p := NatToString(n / 10);
      assert r[..|r| - 1] == p;
      assert r[0] == p[0];
    }
  }

  /**
   * An integer renders as its decimal digits without leading zeros, after a
   * '-' when it is negative: the text reads back as the same number.
   */
  lemma IntToStringDenotes(n: int)
    ensures n >= 0 ==> DecimalValue(IntToString(n)) == n && (IntToString(n)[0] == '0' ==> n == 0)
    ensures n < 0 ==>
      IntToString(n)[0] == '-' && IntToString(n)[1..] == NatToString(-n) &&
      DecimalValue(IntToString(n)[1..]) == -n && IntToString(n)[1] != '0'
  {
    if n < 0 {
      NatToStringDenotes(-n);
      assert IntToString(n)[1..] == NatToString(-n);
    } else {
      NatToStringDenotes(n);
    }
  }
}
