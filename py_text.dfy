/**
 * Python's notion of whitespace on `str`, shared by the regular-expression
 * class `\s` (for a `str` pattern) and by `str.strip()`, and a model of
 * `str.strip()` with no argument.
 */
module PyText {

  /**
   * A character Python's `str.isspace()` accepts; `\s` in a `str` regex
   * matches exactly these. JSON's own whitespace is among them, and no JSON
   * punctuation is.
   */
  predicate IsSpace(c: char): (b: bool)
    ensures c == ' ' || c == '\t' || c == '\n' || c == '\r' ==> b
    ensures b ==> c != ',' && c != ':' && c != '"' && c != '{' && c != '}' && c != '[' && c != ']'
  {
    var n := c as int;
    || (0x09 <= n <= 0x0D) || (0x1C <= n <= 0x20)
    || n == 0x85 || n == 0xA0 || n == 0x1680
    || (0x2000 <= n <= 0x200A)
    || n == 0x2028 || n == 0x2029 || n == 0x202F || n == 0x205F || n == 0x3000
  }

  predicate AllSpace(s: seq<char>)
  {
    forall k :: 0 <= k < |s| ==> IsSpace(s[k])
  }

  /** No whitespace at either end (what `str.strip()` leaves behind). */
  predicate Trimmed(s: seq<char>)
  {
    s == [] || (!IsSpace(s[0]) && !IsSpace(s[|s| - 1]))
  }

  /** Length of the longest all-whitespace prefix of `s`: how far `\s*` reaches greedily. */
  function SpaceRun(s: seq<char>): (n: nat)
    ensures n <= |s|
    ensures n == |s| || !IsSpace(s[n])
  {
    if s != [] && IsSpace(s[0]) then 1 + SpaceRun(s[1..]) else 0
  }

  /** Every character of the run SpaceRun measures is whitespace. */
  lemma {:induction false} SpaceRunIsSpace(s: seq<char>, k: int)
    requires 0 <= k < SpaceRun(s)
    ensures IsSpace(s[k])
  {
    if k > 0 {
      SpaceRunIsSpace(s[1..], k - 1);
    }
  }

  lemma SpaceRunPrefixIsSpace(s: seq<char>)
    ensures AllSpace(s[..SpaceRun(s)])
  {
    forall k | 0 <= k < SpaceRun(s) ensures IsSpace(s[..SpaceRun(s)][k]) {
      SpaceRunIsSpace(s, k);
    }
  }

  /** Length of the longest all-whitespace suffix of `s`. */
  function TrailingSpaceRun(s: seq<char>): (n: nat)
    ensures n <= |s|
    ensures n == |s| || !IsSpace(s[|s| - 1 - n])
  {
    if s != [] && IsSpace(s[|s| - 1]) then 1 + TrailingSpaceRun(s[..|s| - 1]) else 0
  }

  /** Every character of the run TrailingSpaceRun measures is whitespace. */
  lemma {:induction false} TrailingSpaceRunIsSpace(s: seq<char>, k: int)
    requires |s| - TrailingSpaceRun(s) <= k < |s|
    ensures IsSpace(s[k])
  {
    if k < |s| - 1 {
      TrailingSpaceRunIsSpace(s[..|s| - 1], k);
    }
  }

  /** `str.strip()`: the text between the leading and the trailing whitespace. */
  function Strip(s: seq<char>): (r: seq<char>)
    ensures Trimmed(r)
    ensures |r| <= |s|
  {
    var lead := SpaceRun(s);
    if lead == |s| then []
    else
      var trail := TrailingSpaceRun(s);
      assert lead < |s| - trail by {
        if lead >= |s| - trail { TrailingSpaceRunIsSpace(s, lead); }
      }
      s[lead..|s| - trail]
  }

  lemma {:induction false} SpaceRunAppend(a: seq<char>, b: seq<char>)
    ensures SpaceRun(a + b) == if SpaceRun(a) < |a| then SpaceRun(a) else |a| + SpaceRun(b)
  {
    if a != [] {
      assert (a + b)[0] == a[0];
      if IsSpace(a[0]) {
        assert (a + b)[1..] == a[1..] + b;
        SpaceRunAppend(a[1..], b);
      }
    } else {
      assert a + b == b;
    }
  }

  lemma {:induction false} TrailingSpaceRunAppend(a: seq<char>, b: seq<char>)
    ensures TrailingSpaceRun(a + b) ==
      if TrailingSpaceRun(b) < |b| then TrailingSpaceRun(b) else |b| + TrailingSpaceRun(a)
  {
    if b != [] {
      assert (a + b)[|a + b| - 1] == b[|b| - 1];
      if IsSpace(b[|b| - 1]) {
        assert (a + b)[..|a + b| - 1] == a + b[..|b| - 1];
        TrailingSpaceRunAppend(a, b[..|b| - 1]);
      }
    } else {
      assert a + b == a;
    }
  }

  /**
   * `str.strip()` is characterised by its result: whatever whitespace
   * surrounds a text with no whitespace at its ends, stripping gives that text.
   */
  lemma {:induction false} StripUnique(lead: seq<char>, m: seq<char>, trail: seq<char>)
    requires AllSpace(lead) && AllSpace(trail) && Trimmed(m)
    ensures Strip(lead + m + trail) == m
  {
    var s := lead + m + trail;
    if m == [] {
      assert s == lead + trail;
      AllSpaceAppend(lead, trail);
      SpaceRunOfAllSpace(s);
    } else {
      assert SpaceRun(lead + (m + trail)) == |lead| by {
        SpaceRunOfAllSpace(lead);
        SpaceRunAppend(lead, m + trail);
        SpaceRunAppend(m, trail);
      }
      assert TrailingSpaceRun((lead + m) + trail) == |trail| by {
        TrailingSpaceRunOfAllSpace(trail);
        TrailingSpaceRunAppend(lead + m, trail);
        TrailingSpaceRunAppend(lead, m);
      }
      assert s == lead + (m + trail) == (lead + m) + trail;
      assert s[|lead|..|s| - |trail|] == m;
    }
  }

  lemma {:induction false} AllSpaceAppend(a: seq<char>, b: seq<char>)
    requires AllSpace(a) && AllSpace(b)
    ensures AllSpace(a + b)
  {
  }

  lemma {:induction false} SpaceRunOfAllSpace(s: seq<char>)
    requires AllSpace(s)
    ensures SpaceRun(s) == |s|
  {
    if s != [] {
      SpaceRunOfAllSpace(s[1..]);
    }
  }

  lemma {:induction false} TrailingSpaceRunOfAllSpace(s: seq<char>)
    requires AllSpace(s)
    ensures TrailingSpaceRun(s) == |s|
  {
    if s != [] {
      TrailingSpaceRunOfAllSpace(s[..|s| - 1]);
    }
  }

  /** Every text is its stripped form with whitespace around it. */
  lemma {:induction false} StripSurroundedBySpace(s: seq<char>)
    ensures var i := SpaceRun(s);
      && i + |Strip(s)| <= |s|
      && s == s[..i] + Strip(s) + s[i + |Strip(s)|..]
      && AllSpace(s[..i]) && AllSpace(s[i + |Strip(s)|..])
  {
    var i := SpaceRun(s);
    SpaceRunPrefixIsSpace(s);
    if i == |s| {
      assert Strip(s) == [];
      assert s[..i] == s;
    } else {
      var t := TrailingSpaceRun(s);
      assert i < |s| - t by {
        if i >= |s| - t { TrailingSpaceRunIsSpace(s, i); }
      }
      assert Strip(s) == s[i..|s| - t];
      assert s == s[..i] + s[i..|s| - t] + s[|s| - t..];
      var tail := s[|s| - t..];
      forall k | 0 <= k < |tail| ensures IsSpace(tail[k]) {
        TrailingSpaceRunIsSpace(s, |s| - t + k);
      }
    }
  }

  /** Stripping twice is stripping once. */
  lemma {:induction false} StripIdempotent(s: seq<char>)
    ensures Strip(Strip(s)) == Strip(s)
  {
    assert [] + Strip(s) + [] == Strip(s);
    StripUnique([], Strip(s), []);
  }
}
