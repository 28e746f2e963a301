/** Small datatypes shared by the other modules. */
module Common {

  datatype Option<+T> = None | Some(value: T)

  datatype Result<+T, +E> = Ok(value: T) | Err(error: E)

  /** One octet of a file or of a stream. */
  type byte = x: int | 0 <= x < 256

  type bytes = seq<byte>

  function Min(a: int, b: int): int {
    if a <= b then a else b
  }

  /** A lower-case hexadecimal digit. */
  predicate IsHex(c: char) {
    '0' <= c <= '9' || 'a' <= c <= 'f'
  }

  /** The name of a git commit. */
  predicate IsRevision(s: string) {
    |s| == 40 && forall i :: 0 <= i < 40 ==> IsHex(s[i])
  }

  /** No value occurs twice in `s`. */
  ghost predicate Distinct<T>(s: seq<T>) {
    forall i, j :: 0 <= i < j < |s| ==> s[i] != s[j]
  }

  lemma SplitLast<T>(s: seq<T>)
    requires s != []
    ensures s == s[..|s| - 1] + [s[|s| - 1]]
  {
  }

  lemma Assoc<T>(a: seq<T>, b: seq<T>, c: seq<T>)
    ensures (a + b) + c == a + (b + c)
  {
  }

  lemma UpdateParts<T>(s: seq<T>, i: nat, x: T)
    requires i < |s|
    ensures s[i := x] == s[..i] + [x] + s[i + 1..]
  {
  }

  lemma OneMore<T>(s: seq<T>, k: nat)
    requires k < |s|
    ensures s[..k + 1] == s[..k] + [s[k]]
  {
  }

  /** The values that occur in `s`. */
  function Elements<T(==,!new)>(s: seq<T>): (r: set<T>)
    ensures forall x :: x in r <==> x in s
  {
    set x | x in s
  }

  /** `|set(s)| == |s|` is how the scripts test that a list has no repeated entry. */
  lemma {:induction false} DistinctIffSetSize<T(!new)>(s: seq<T>)
    ensures |Elements(s)| <= |s|
    ensures |Elements(s)| == |s| <==> Distinct(s)
  {
    if s == [] {
    } else {
      var n := |s| - 1;
      var t := s[..n];
      DistinctIffSetSize(t);
      assert s == t + [s[n]];
      if s[n] in t {
        assert Elements(s) == Elements(t);
        var i :| 0 <= i < n && t[i] == s[n];
        assert s[i] == s[n];
      } else {
        assert Elements(s) == Elements(t) + {s[n]};
        if Distinct(t) {
          forall i, j | 0 <= i < j < |s| ensures s[i] != s[j] {
            assert s[i] == t[i];
            if j < n {
              assert s[j] == t[j];
            }
          }
        } else {
          var i, j :| 0 <= i < j < n && t[i] == t[j];
          assert s[i] == s[j];
        }
      }
    }
  }
}
