/**
 * The two `os.path` operations the backend uses, as POSIX `posixpath`
 * defines them: `join` of two components and `splitext`.
 */
module PyPath {
  import opened PyStr

  /** `os.path.join(a, b)`: an absolute `b` replaces `a`; otherwise one `/` is inserted if needed. */
  function Join(a: string, b: string): (r: string)
    ensures EndsWith(r, b)
    ensures (b != [] && b[0] == '/') || (|a| <= |r| && r[..|a|] == a)
  {
    if b != [] && b[0] == '/' then b
    else if a == [] || a[|a| - 1] == '/' then a + b
    else a + "/" + b
  }

  /** Every character of `t` is a dot. */
  predicate AllDots(t: string) {
    forall i :: 0 <= i < |t| ==> t[i] == '.'
  }

  /**
   * `os.path.splitext(p)`: splits off the text from the last dot of the last
   * path component, unless everything before that dot in the component is dots
   * (so `.bashrc` and `..x` have no extension).
   */
  function SplitExt(p: string): (r: (string, string))
    ensures r.0 + r.1 == p
    ensures r.1 == [] || (r.1[0] == '.' && '.' !in r.1[1..] && '/' !in r.1)
  {
    var sep := RFind(p, '/');
    var dot := RFind(p, '.');
    if dot > sep && !AllDots(p[sep + 1..dot]) then
      assert sep == -1 ==> p[sep + 1..] == p;
      ExtensionAt(p, sep, dot);
      (p[..dot], p[dot..])
    else
      (p, "")
  }

  /** Splitting at the last dot after the last slash leaves one dot-led, slash-free extension. */
  lemma ExtensionAt(p: string, sep: int, dot: nat)
    requires -1 <= sep < dot < |p|
    requires p[dot] == '.' && '.' !in p[dot + 1..] && '/' !in p[sep + 1..]
    ensures p[..dot] + p[dot..] == p
    ensures p[dot..][0] == '.' && '.' !in p[dot..][1..] && '/' !in p[dot..]
  {
    assert p[dot..][1..] == p[dot + 1..];
    assert p[dot..] == p[sep + 1..][dot - sep - 1..];
  }

  /**
   * When the last dot of `p` follows the last slash and some non-dot character
   * precedes it in the last component, the root is everything before that dot.
   */
  lemma SplitExtDropsLastExtension(p: string, i: nat, j: nat)
    requires j < i < |p| && p[i] == '.' && '.' !in p[i + 1..] && '/' !in p[j..]
    requires p[j] != '.'
    ensures SplitExt(p) == (p[..i], p[i..])
  {
    var sep := RFind(p, '/');
    var dot := RFind(p, '.');
    assert p[sep + 1..dot][j - sep - 1] == p[j];
  }

  /** Past the last occurrence of `c`, no suffix contains `c`. */
  lemma NothingAfterLast(p: string, c: char, j: nat)
    requires RFind(p, c) < j <= |p|
    ensures c !in p[j..]
  {
    forall y | 0 <= y < |p[j..]| ensures p[j..][y] != c {
      assert p[j..][y] == p[j + y];
    }
  }

  /**
   * When every dot of the last component has only dots before it in that
   * component (no dot, or a leading run like `.bashrc` or `..`), there is no
   * extension: the root is the whole path.
   */
  lemma SplitExtNoExtension(p: string)
    requires forall i, j :: 0 <= j < i < |p| && p[i] == '.' && '/' !in p[j..] ==> p[j] == '.'
    ensures SplitExt(p) == (p, "")
  {
    var sep := RFind(p, '/');
    var dot := RFind(p, '.');
    if dot > sep {
      var q := p[sep + 1..dot];
      forall x | 0 <= x < |q| ensures q[x] == '.' {
        var j := sep + 1 + x;
        assert q[x] == p[j];
        NothingAfterLast(p, '/', j);
      }
    }
  }
}
