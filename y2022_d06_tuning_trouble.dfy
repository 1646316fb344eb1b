// Tuning trouble (2022, day 6).
//
// The device looks for the first marker in the datastream: a window of `N`
// consecutive characters that are all different. The answer is the number
// of characters read up to the end of that window.

module TuningTrouble {
  import opened Wrappers

  /** The characters of a window, as `chars().unique()` collects them. */
  function Unique(w: string): set<char>
  {
    set c | c in w
  }

  /** No character of the window occurs twice. */
  predicate AllDifferent(w: string)
  {
    forall i, j :: 0 <= i < j < |w| ==> w[i] != w[j]
  }

  /**
   * A window has as many unique characters as it is long exactly when its
   * characters are all different; otherwise it has fewer.
   */
  lemma {:induction false} UniqueCountMeaning(w: string)
    ensures |Unique(w)| <= |w|
    ensures |Unique(w)| == |w| <==> AllDifferent(w)
  {
    if w != [] {
      var rest := w[1..];
      UniqueCountMeaning(rest);
      assert Unique(w) == Unique(rest) + {w[0]};
      if w[0] in rest {
        assert Unique(w) == Unique(rest);
        var k :| 0 <= k < |rest| && rest[k] == w[0];
        assert w[0] == w[k + 1];
      } else {
        assert Unique(w) - {w[0]} == Unique(rest);
        if AllDifferent(rest) {
          forall i, j | 0 <= i < j < |w|
            ensures w[i] != w[j]
          {
            if i > 0 {
              assert w[i] == rest[i - 1] && w[j] == rest[j - 1];
            } else {
              assert w[j] == rest[j - 1];
            }
          }
        } else {
          var i, j :| 0 <= i < j < |rest| && rest[i] == rest[j];
          assert w[i + 1] == w[j + 1];
        }
      }
    }
  }

  /** The window of `n` characters starting at `i` is a marker. */
  predicate MarkerAt(s: string, n: nat, i: nat)
    requires i + n <= |s|
  {
    |Unique(s[i..i + n])| == n
  }

  /**
   * `find_unique_slice::<N>`: the windows are tried from the left and the
   * first marker's end is returned. `None` where the source panics: when no
   * window is a marker, the slice `s[i..i + N]` runs past the end. The
   * source slices bytes; the datastream is ASCII, one byte per character.
   */
  method FindUniqueSlice(s: string, n: nat) returns (r: Option<nat>)
    ensures r.None? <==> forall i: nat :: i + n <= |s| ==> !MarkerAt(s, n, i)
    ensures r.Some? ==> n <= r.value <= |s| && MarkerAt(s, n, r.value - n)
    ensures r.Some? ==> forall i: nat :: i < r.value - n ==> !MarkerAt(s, n, i)
  {
    var i: nat := 0;
    while true
      invariant forall k: nat :: k < i ==> k + n <= |s| && !MarkerAt(s, n, k)
      decreases |s| + 1 - i
    {
      if i + n > |s| {
        forall k: nat | k + n <= |s|
          ensures !MarkerAt(s, n, k)
        {
          assert k < i;
        }
        return None;
      }
      if |Unique(s[i..i + n])| == n {
        assert MarkerAt(s, n, i);
        return Some(i + n);
      }
      i := i + 1;
    }
  }

  /** A window is a marker exactly when its characters are all different. */
  lemma MarkerMeaning(s: string, n: nat, i: nat)
    requires i + n <= |s|
    ensures MarkerAt(s, n, i) <==> AllDifferent(s[i..i + n])
  {
    UniqueCountMeaning(s[i..i + n]);
  }

  /**
   * The first sample datastream starts `mjqjpqm`: its first four-character
   * marker is `jpqm`, ending after seven characters.
   */
  lemma Sample(s: string)
    requires |s| >= 7 && s[..7] == "mjqjpqm"
    ensures MarkerAt(s, 4, 3) && forall i: nat :: i < 3 ==> !MarkerAt(s, 4, i)
  {
    assert s[0] == 'm' && s[1] == 'j' && s[2] == 'q' && s[3] == 'j' by {
      assert s[0] == s[..7][0] && s[1] == s[..7][1] && s[2] == s[..7][2] && s[3] == s[..7][3];
    }
    assert s[4] == 'p' && s[5] == 'q' && s[6] == 'm' by {
      assert s[4] == s[..7][4] && s[5] == s[..7][5] && s[6] == s[..7][6];
    }
    MarkerMeaning(s, 4, 3);
    forall i: nat | i < 3
      ensures !MarkerAt(s, 4, i)
    {
      MarkerMeaning(s, 4, i);
      var w := s[i..i + 4];
      if i == 0 {
        assert w[1] == s[1] && w[3] == s[3];
      } else if i == 1 {
        assert w[0] == s[1] && w[2] == s[3];
      } else {
        assert w[0] == s[2] && w[3] == s[5];
      }
    }
  }
}
