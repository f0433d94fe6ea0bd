/**
 * The few Python string and path operations the kiosk relies on:
 * `str.replace`, `os.path.basename` and `os.path.join` (POSIX flavour).
 */
module Text {

  predicate StartsWith(s: string, prefix: string) {
    |prefix| <= |s| && s[..|prefix|] == prefix
  }

  /** `pat` occurs somewhere in `s`. */
  predicate Occurs(pat: string, s: string)
    decreases |s|
  {
    StartsWith(s, pat) || (s != "" && Occurs(pat, s[1..]))
  }

  /**
   * `s.replace(pat, rep)`: scans left to right and replaces every
   * non-overlapping occurrence of `pat`.
   */
  function Replace(s: string, pat: string, rep: string): string
    requires pat != ""
    decreases |s|
  {
    if StartsWith(s, pat) then rep + Replace(s[|pat|..], pat, rep)
    else if s == "" then ""
    else [s[0]] + Replace(s[1..], pat, rep)
  }

  /**
   * `os.path.basename(p)`: everything after the last '/'.
   * The contract pins it down: a suffix of `p` without '/', preceded by a
   * '/' unless it is the whole of `p`.
   */
  function Basename(p: string): (b: string)
    ensures |b| <= |p| && b == p[|p| - |b|..]
    ensures '/' !in b
    ensures |b| < |p| ==> p[|p| - |b| - 1] == '/'
  {
    if p == "" then ""
    else if p[|p| - 1] == '/' then ""
    else Basename(p[..|p| - 1]) + [p[|p| - 1]]
  }

  /** The basename is what follows the last '/'. */
  lemma BasenameAfterLastSlash(p: string, k: nat)
    requires k < |p| && p[k] == '/' && '/' !in p[k + 1..]
    ensures Basename(p) == p[k + 1..]
  {
  }

  /** `os.path.join(a, b)`: an absolute `b` replaces `a`. */
  function PathJoin(a: string, b: string): string {
    if StartsWith(b, "/") then b
    else if a == "" || a[|a| - 1] == '/' then a + b
    else a + "/" + b
  }

  /** Replacing one character distributes over concatenation. */
  lemma {:induction false} ReplaceCharAppend(x: string, y: string, a: char, rep: string)
    ensures Replace(x + y, [a], rep) == Replace(x, [a], rep) + Replace(y, [a], rep)
    decreases |x|
  {
    if x == "" {
      assert x + y == y;
    } else {
      assert (x + y)[1..] == x[1..] + y;
      assert (x + y)[0] == x[0];
      ReplaceCharAppend(x[1..], y, a, rep);
      if x[0] == a {
        assert StartsWith(x + y, [a]) && StartsWith(x, [a]);
      } else {
        assert !StartsWith(x + y, [a]) && !StartsWith(x, [a]);
      }
    }
  }

  /** Replacing a character that does not occur changes nothing. */
  lemma {:induction false} ReplaceAbsentChar(s: string, a: char, rep: string)
    requires a !in s
    ensures Replace(s, [a], rep) == s
    decreases |s|
  {
    if s != "" {
      assert s[0] in s;
      assert s[..1] == [s[0]];
      ReplaceAbsentChar(s[1..], a, rep);
      assert s == [s[0]] + s[1..];
    }
  }

  /**
   * Replacing `a` by `b` and then `b` by `a` restores the string, as long
   * as `b` did not occur in it to begin with.
   */
  lemma {:induction false} ReplaceCharRoundTrip(s: string, a: char, b: char)
    requires a != b && b !in s
    ensures Replace(Replace(s, [a], [b]), [b], [a]) == s
    decreases |s|
  {
    if s != "" {
      var t := Replace(s[1..], [a], [b]);
      ReplaceCharRoundTrip(s[1..], a, b);
      var c := if s[0] == a then b else s[0];
      assert StartsWith(s, [a]) <==> s[0] == a;
      assert Replace(s, [a], [b]) == [c] + t;
      assert ([c] + t)[1..] == t;
      assert StartsWith([c] + t, [b]) <==> c == b;
      assert s == [s[0]] + s[1..];
    }
  }

  /**
   * Removing every ".jpg" from `s + ".jpg"` gives back `s` when `s` holds
   * no ".jpg" of its own: no occurrence can straddle the join.
   */
  lemma {:induction false} StripJpg(s: string)
    requires !Occurs(".jpg", s)
    ensures Replace(s + ".jpg", ".jpg", "") == s
    decreases |s|
  {
    var t := s + ".jpg";
    if s == "" {
      assert t == ".jpg";
      assert StartsWith(t, ".jpg");
      assert t[4..] == "";
    } else {
      assert !StartsWith(s, ".jpg");
      assert t[|s|] == '.';
      assert !StartsWith(t, ".jpg");
      assert t[1..] == s[1..] + ".jpg";
      StripJpg(s[1..]);
      assert s == [s[0]] + s[1..];
    }
  }
}
