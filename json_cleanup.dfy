/**
 * `clean_json_string`: two regular-expression substitutions that delete a
 * comma, and the whitespace after it, in front of a closing `}` and then in
 * front of a closing `]`.
 *
 * `re.sub(pattern, closer, s)` scans `s` from left to right and never lets
 * two matches overlap. For the pattern `,\s*}` (or `,\s*]`) the comma, the
 * whitespace and the closer are three disjoint kinds of character, so the
 * greedy `\s*` with backtracking matches at a position exactly when the
 * longest whitespace run after the comma is followed by the closer
 * (lemma MatchIsGreedyRun). The substitution is therefore the deterministic
 * scan `Substitute` below.
 */
module JsonCleanup {
  import opened PyText

  /** The two closers the source targets, each a pattern's literal tail. */
  predicate IsCloser(c: char)
  {
    c == '}' || c == ']'
  }

  /** What a substitution may delete: the comma and the whitespace of a match. */
  predicate IsDroppable(c: char)
  {
    c == ',' || IsSpace(c)
  }

  /**
   * The regular expression `,\s*<closer>` matches `s[i..j+1]`:
   * a comma at `i`, whitespace strictly between, the closer at `j`.
   */
  ghost predicate RegexMatch(s: seq<char>, i: int, j: int, closer: char)
  {
    && 0 <= i < j < |s|
    && s[i] == ','
    && (forall m :: i < m < j ==> IsSpace(s[m]))
    && s[j] == closer
  }

  /** Somewhere in `s` the pattern `,\s*<closer>` matches. */
  ghost predicate HasTrailingComma(s: seq<char>, closer: char)
  {
    exists i, j :: RegexMatch(s, i, j, closer)
  }

  /** The scan's test at the front of `s`: a comma, the longest whitespace run, then the closer. */
  predicate MatchesAtFront(s: seq<char>, closer: char)
  {
    && |s| > 0
    && s[0] == ','
    && 1 + SpaceRun(s[1..]) < |s|
    && s[1 + SpaceRun(s[1..])] == closer
  }

  /** `re.sub(r',\s*' + closer, closer, s)`. */
  function Substitute(s: seq<char>, closer: char): (r: seq<char>)
    requires IsCloser(closer)
    ensures |r| <= |s|
    ensures (r == []) == (s == [])
  {
    if s == [] then []
    else if MatchesAtFront(s, closer) then
      [closer] + Substitute(s[2 + SpaceRun(s[1..])..], closer)
    else
      [s[0]] + Substitute(s[1..], closer)
  }

  /** `clean_json_string`: the brace pass, then the bracket pass on its output. */
  function CleanJsonString(s: seq<char>): (r: seq<char>)
    ensures DropsOnly(s, r)
    ensures |r| <= |s|
    ensures Kept(r) == Kept(s)
  {
    var braces := Substitute(s, '}');
    SubstituteDropsOnly(s, '}');
    SubstituteDropsOnly(braces, ']');
    DropsOnlyTransitive(s, braces, Substitute(braces, ']'));
    DropsOnlyKeepsKept(s, Substitute(braces, ']'));
    Substitute(braces, ']')
  }

  // ---------------------------------------------------------------------
  // The scan is the regular expression
  // ---------------------------------------------------------------------

  /**
   * A match of `,\s*<closer>` starting at the front of `s` exists exactly
   * when the scan's test holds, and it then ends right after the longest
   * whitespace run: the match is unique.
   */
  lemma {:induction false} MatchIsGreedyRun(s: seq<char>, j: int, closer: char)
    requires IsCloser(closer)
    ensures RegexMatch(s, 0, j, closer) <==> (MatchesAtFront(s, closer) && j == 1 + SpaceRun(s[1..]))
  {
    if RegexMatch(s, 0, j, closer) {
      var n := SpaceRun(s[1..]);
      assert j - 1 >= n by {
        if j - 1 < n { SpaceRunIsSpace(s[1..], j - 1); }
      }
      assert j - 1 <= n;
    }
    if MatchesAtFront(s, closer) && j == 1 + SpaceRun(s[1..]) {
      var n := SpaceRun(s[1..]);
      forall m | 0 < m < j ensures IsSpace(s[m]) {
        SpaceRunIsSpace(s[1..], m - 1);
      }
    }
  }

  // ---------------------------------------------------------------------
  // Only commas and whitespace are ever deleted
  // ---------------------------------------------------------------------

  /** `r` is `s` with some commas and whitespace characters deleted, the rest kept in order. */
  predicate DropsOnly(s: seq<char>, r: seq<char>)
    decreases |s|
  {
    if s == [] then r == []
    else
      || (r != [] && r[0] == s[0] && DropsOnly(s[1..], r[1..]))
      || (IsDroppable(s[0]) && DropsOnly(s[1..], r))
  }

  /** The characters of `s` that are neither a comma nor whitespace, in order. */
  function Kept(s: seq<char>): (r: seq<char>)
    ensures |r| <= |s|
    ensures forall k :: 0 <= k < |r| ==> !IsDroppable(r[k])
  {
    if s == [] then []
    else if IsDroppable(s[0]) then Kept(s[1..])
    else [s[0]] + Kept(s[1..])
  }

  /** Deleting whitespace in front of a deletion is still a deletion. */
  lemma {:induction false} DropsOnlySpacePrefix(w: seq<char>, t: seq<char>, r: seq<char>)
    requires AllSpace(w) && DropsOnly(t, r)
    ensures DropsOnly(w + t, r)
  {
    if w != [] {
      DropsOnlySpacePrefix(w[1..], t, r);
      assert (w + t)[1..] == w[1..] + t;
    } else {
      assert w + t == t;
    }
  }

  lemma {:induction false} DropsOnlyTransitive(a: seq<char>, b: seq<char>, c: seq<char>)
    requires DropsOnly(a, b) && DropsOnly(b, c)
    ensures DropsOnly(a, c)
    decreases |a|
  {
    if a == [] {
      return;
    }
    if b != [] && b[0] == a[0] && DropsOnly(a[1..], b[1..]) {
      if c != [] && c[0] == b[0] && DropsOnly(b[1..], c[1..]) {
        DropsOnlyTransitive(a[1..], b[1..], c[1..]);
      } else {
        DropsOnlyTransitive(a[1..], b[1..], c);
      }
    } else {
      DropsOnlyTransitive(a[1..], b, c);
    }
  }

  /** A deletion of commas and whitespace leaves every other character, in order. */
  lemma {:induction false} DropsOnlyKeepsKept(s: seq<char>, r: seq<char>)
    requires DropsOnly(s, r)
    ensures Kept(r) == Kept(s)
    decreases |s|
  {
    if s != [] {
      if r != [] && r[0] == s[0] && DropsOnly(s[1..], r[1..]) {
        DropsOnlyKeepsKept(s[1..], r[1..]);
      } else {
        DropsOnlyKeepsKept(s[1..], r);
      }
    }
  }

  /** One substitution pass only deletes commas and whitespace. */
  lemma {:induction false} SubstituteDropsOnly(s: seq<char>, closer: char)
    requires IsCloser(closer)
    ensures DropsOnly(s, Substitute(s, closer))
  {
    if s == [] {
      return;
    }
    if MatchesAtFront(s, closer) {
      var n := SpaceRun(s[1..]);
      var rest := s[2 + n..];
      SubstituteDropsOnly(rest, closer);
      var r := Substitute(s, closer);
      assert r == [closer] + Substitute(rest, closer);
      assert s[1 + n..][1..] == rest;
      assert DropsOnly(s[1 + n..], r);
      assert s[1..] == s[1..][..n] + s[1 + n..];
      SpaceRunPrefixIsSpace(s[1..]);
      DropsOnlySpacePrefix(s[1..][..n], s[1 + n..], r);
    } else {
      SubstituteDropsOnly(s[1..], closer);
    }
  }

  // ---------------------------------------------------------------------
  // When the text changes
  // ---------------------------------------------------------------------

  /** A match in the tail of `s` is a match in `s`, one position further on. */
  lemma {:induction false} ShiftMatch(s: seq<char>, i: int, j: int, closer: char)
    requires |s| > 0 && RegexMatch(s[1..], i, j, closer)
    ensures RegexMatch(s, i + 1, j + 1, closer)
  {
    forall m | i + 1 < m < j + 1 ensures IsSpace(s[m]) {
      assert s[m] == s[1..][m - 1];
    }
  }

  /** A text with no comma-whitespace-closer sequence passes through a pass unchanged. */
  lemma {:induction false} SubstituteIdentity(s: seq<char>, closer: char)
    requires IsCloser(closer) && !HasTrailingComma(s, closer)
    ensures Substitute(s, closer) == s
  {
    if s == [] {
      return;
    }
    if MatchesAtFront(s, closer) {
      MatchIsGreedyRun(s, 1 + SpaceRun(s[1..]), closer);
      assert false;
    }
    forall i, j | RegexMatch(s[1..], i, j, closer) ensures false {
      ShiftMatch(s, i, j, closer);
    }
    SubstituteIdentity(s[1..], closer);
  }

  /** A text with a comma-whitespace-closer sequence comes out of a pass strictly shorter. */
  lemma {:induction false} SubstituteShrinks(s: seq<char>, closer: char)
    requires IsCloser(closer) && HasTrailingComma(s, closer)
    ensures |Substitute(s, closer)| < |s|
  {
    var i, j :| RegexMatch(s, i, j, closer);
    if MatchesAtFront(s, closer) {
      return;
    }
    if i == 0 {
      MatchIsGreedyRun(s, j, closer);
      assert false;
    }
    assert RegexMatch(s[1..], i - 1, j - 1, closer) by {
      forall m | i - 1 < m < j - 1 ensures IsSpace(s[1..][m]) {
        assert s[1..][m] == s[m + 1];
      }
    }
    SubstituteShrinks(s[1..], closer);
  }

  /** A pass changes its input exactly when the pattern occurs in it. */
  lemma {:induction false} SubstituteChangesIff(s: seq<char>, closer: char)
    requires IsCloser(closer)
    ensures Substitute(s, closer) == s <==> !HasTrailingComma(s, closer)
  {
    if HasTrailingComma(s, closer) {
      SubstituteShrinks(s, closer);
    } else {
      SubstituteIdentity(s, closer);
    }
  }

  /**
   * `clean_json_string` returns its input unchanged exactly when there is
   * no comma followed by optional whitespace and a `}` or `]`; otherwise
   * the result is strictly shorter.
   */
  lemma {:induction false} CleanJsonStringUnchangedIff(s: seq<char>)
    ensures CleanJsonString(s) == s <==> !HasTrailingComma(s, '}') && !HasTrailingComma(s, ']')
    ensures HasTrailingComma(s, '}') || HasTrailingComma(s, ']') ==> |CleanJsonString(s)| < |s|
  {
    var braces := Substitute(s, '}');
    if HasTrailingComma(s, '}') {
      SubstituteShrinks(s, '}');
    } else {
      SubstituteIdentity(s, '}');
      SubstituteChangesIff(s, ']');
      if HasTrailingComma(s, ']') {
        SubstituteShrinks(s, ']');
      }
    }
  }

  /** Text appended after a non-whitespace character does not change the front match. */
  lemma {:induction false} MatchesAtFrontAppend(u: seq<char>, v: seq<char>, closer: char)
    requires IsCloser(closer) && u != []
    requires v == [] || (!IsSpace(v[0]) && v[0] != closer)
    ensures SpaceRun((u + v)[1..]) == SpaceRun(u[1..])
    ensures MatchesAtFront(u + v, closer) == MatchesAtFront(u, closer)
  {
    var s := u + v;
    assert s[1..] == u[1..] + v;
    SpaceRunAppend(u[1..], v);
    if v != [] {
      assert SpaceRun(v) == 0;
    }
    var n := SpaceRun(u[1..]);
    if 1 + n < |u| {
      assert s[1 + n] == u[1 + n];
    } else if 1 + n < |s| {
      assert s[1 + n] == v[0];
    }
  }

  /** A pass works locally: text ending before a character that cannot continue a match is rewritten on its own. */
  lemma {:induction false} SubstituteAppend(u: seq<char>, v: seq<char>, closer: char)
    requires IsCloser(closer)
    requires v == [] || (!IsSpace(v[0]) && v[0] != closer)
    ensures Substitute(u + v, closer) == Substitute(u, closer) + Substitute(v, closer)
  {
    if u == [] {
      assert u + v == v;
    } else {
      MatchesAtFrontAppend(u, v, closer);
      if MatchesAtFront(u, closer) {
        var tail := u[2 + SpaceRun(u[1..])..];
        SubstituteAppend(tail, v, closer);
        SubstituteAppendMatch(u, v, closer);
      } else {
        SubstituteAppend(u[1..], v, closer);
        SubstituteAppendNoMatch(u, v, closer);
      }
    }
  }

  lemma {:induction false} SubstituteAppendMatch(u: seq<char>, v: seq<char>, closer: char)
    requires IsCloser(closer) && MatchesAtFront(u, closer) && MatchesAtFront(u + v, closer)
    requires SpaceRun((u + v)[1..]) == SpaceRun(u[1..])
    requires var tail := u[2 + SpaceRun(u[1..])..];
      Substitute(tail + v, closer) == Substitute(tail, closer) + Substitute(v, closer)
    ensures Substitute(u + v, closer) == Substitute(u, closer) + Substitute(v, closer)
  {
    var n := SpaceRun(u[1..]);
    var tail := u[2 + n..];
    assert (u + v)[2 + n..] == tail + v;
    assert Substitute(u + v, closer) == [closer] + Substitute(tail + v, closer);
    assert Substitute(u, closer) == [closer] + Substitute(tail, closer);
    ConsAssociative(closer, Substitute(tail, closer), Substitute(v, closer));
  }

  lemma {:induction false} SubstituteAppendNoMatch(u: seq<char>, v: seq<char>, closer: char)
    requires IsCloser(closer) && u != [] && !MatchesAtFront(u, closer) && !MatchesAtFront(u + v, closer)
    requires Substitute(u[1..] + v, closer) == Substitute(u[1..], closer) + Substitute(v, closer)
    ensures Substitute(u + v, closer) == Substitute(u, closer) + Substitute(v, closer)
  {
    assert (u + v)[0] == u[0];
    assert (u + v)[1..] == u[1..] + v;
    assert Substitute(u + v, closer) == [u[0]] + Substitute(u[1..] + v, closer);
    assert Substitute(u, closer) == [u[0]] + Substitute(u[1..], closer);
    ConsAssociative(u[0], Substitute(u[1..], closer), Substitute(v, closer));
  }

  lemma ConsAssociative(c: char, x: seq<char>, y: seq<char>)
    ensures [c] + (x + y) == ([c] + x) + y
  {
  }

  /** A text that opens with a comma, whitespace and the closer has them rewritten to the closer alone. */
  lemma {:induction false} SubstituteAtMatch(w: seq<char>, v: seq<char>, closer: char)
    requires IsCloser(closer) && AllSpace(w)
    ensures Substitute([','] + w + [closer] + v, closer) == [closer] + Substitute(v, closer)
  {
    var x := [','] + w + [closer] + v;
    assert x[1..] == w + ([closer] + v);
    assert SpaceRun(x[1..]) == |w| by {
      SpaceRunOfAllSpace(w);
      SpaceRunAppend(w, [closer] + v);
      assert SpaceRun([closer] + v) == 0;
    }
    assert x[1 + |w|] == closer;
    assert MatchesAtFront(x, closer);
    assert x[2 + |w|..] == v;
  }

  /**
   * A comma followed by nothing but whitespace and then the closer is
   * deleted together with that whitespace, the closer kept, and the text on
   * either side rewritten independently.
   */
  lemma {:induction false} RemovesCommaBeforeCloser(u: seq<char>, w: seq<char>, v: seq<char>, closer: char)
    requires IsCloser(closer) && AllSpace(w)
    ensures Substitute(u + [','] + w + [closer] + v, closer)
         == Substitute(u, closer) + [closer] + Substitute(v, closer)
  {
    var x := [','] + w + [closer] + v;
    assert u + [','] + w + [closer] + v == u + x;
    assert x[0] == ',';
    SubstituteAppend(u, x, closer);
    SubstituteAtMatch(w, v, closer);
  }

  /** A comma-free prefix passes through a pass untouched, and the scan resumes right after it. */
  lemma {:induction false} SubstituteCommaFreePrefix(x: seq<char>, y: seq<char>, closer: char)
    requires IsCloser(closer) && ',' !in x
    ensures Substitute(x + y, closer) == x + Substitute(y, closer)
  {
    if x == [] {
      assert x + y == y;
    } else {
      assert (x + y)[0] == x[0];
      assert (x + y)[1..] == x[1..] + y;
      SubstituteCommaFreePrefix(x[1..], y, closer);
      ConsAssociative(x[0], x[1..], Substitute(y, closer));
      assert [x[0]] + x[1..] == x;
    }
  }

  /**
   * Anywhere in a text, even inside nested objects and arrays, cleaning
   * deletes a comma followed only by whitespace and a `}` or `]`, keeps the
   * closer, and cleans the text on either side on its own.
   */
  lemma {:induction false} CleanJsonStringRemovesCommaBeforeCloser(u: seq<char>, w: seq<char>, v: seq<char>, closer: char)
    requires IsCloser(closer) && AllSpace(w)
    ensures CleanJsonString(u + [','] + w + [closer] + v)
         == CleanJsonString(u) + [closer] + CleanJsonString(v)
  {
    if closer == '}' {
      CleanRemovesCommaBeforeBrace(u, w, v);
    } else {
      CleanRemovesCommaBeforeBracket(u, w, v);
    }
  }

  lemma {:induction false} CleanRemovesCommaBeforeBrace(u: seq<char>, w: seq<char>, v: seq<char>)
    requires AllSpace(w)
    ensures CleanJsonString(u + [','] + w + ['}'] + v)
         == CleanJsonString(u) + ['}'] + CleanJsonString(v)
  {
    var bu := Substitute(u, '}');
    var bv := Substitute(v, '}');
    RemovesCommaBeforeCloser(u, w, v, '}');
    assert bu + ['}'] + bv == bu + (['}'] + bv);
    SubstituteAppend(bu, ['}'] + bv, ']');
    SubstituteCommaFreePrefix(['}'], bv, ']');
  }

  lemma {:induction false} CleanRemovesCommaBeforeBracket(u: seq<char>, w: seq<char>, v: seq<char>)
    requires AllSpace(w)
    ensures CleanJsonString(u + [','] + w + [']'] + v)
         == CleanJsonString(u) + [']'] + CleanJsonString(v)
  {
    var bu := Substitute(u, '}');
    var bv := Substitute(v, '}');
    var x := [','] + w + [']'] + v;
    assert u + [','] + w + [']'] + v == u + x;
    assert x[0] == ',';
    SubstituteAppend(u, x, '}');
    BracePassKeepsCommaBeforeBracket(w, v);
    assert bu + ([','] + w + [']'] + bv) == bu + [','] + w + [']'] + bv;
    RemovesCommaBeforeCloser(bu, w, bv, ']');
  }

  /** The brace pass leaves a comma, whitespace and `]` alone. */
  lemma {:induction false} BracePassKeepsCommaBeforeBracket(w: seq<char>, v: seq<char>)
    requires AllSpace(w)
    ensures Substitute([','] + w + [']'] + v, '}') == [','] + w + [']'] + Substitute(v, '}')
  {
    var x := [','] + w + [']'] + v;
    assert ',' !in w + [']'] by {
      assert forall k :: 0 <= k < |w| ==> w[k] != ',';
    }
    assert x[1..] == (w + [']']) + v;
    SubstituteCommaFreePrefix(w + [']'], v, '}');
    assert SpaceRun(x[1..]) == |w| by {
      SpaceRunOfAllSpace(w);
      SpaceRunAppend(w, [']'] + v);
      assert SpaceRun([']'] + v) == 0;
      assert x[1..] == w + ([']'] + v);
    }
    assert x[1 + |w|] == ']';
    assert !MatchesAtFront(x, '}');
    assert Substitute(x, '}') == [','] + Substitute(x[1..], '}');
  }

  /** A pass leaves a text without its closer unchanged. */
  lemma {:induction false} SubstituteWithoutCloser(s: seq<char>, closer: char)
    requires IsCloser(closer) && closer !in s
    ensures Substitute(s, closer) == s
  {
    SubstituteIdentity(s, closer);
  }

  /**
   * An object whose last member is followed by a comma and whitespace is
   * cleaned to the object without them: `{"a":"b", }` becomes `{"a":"b"}`.
   */
  lemma {:induction false} CleanJsonStringObjectTrailingComma(body: string, w: string)
    requires '}' !in body && ']' !in body && AllSpace(w)
    ensures CleanJsonString("{" + body + "," + w + "}") == "{" + body + "}"
  {
    var u := "{" + body;
    assert '}' !in u && ']' !in u;
    assert "{" + body + "," + w + "}" == u + [','] + w + ['}'] + [];
    RemovesCommaBeforeCloser(u, w, [], '}');
    SubstituteWithoutCloser(u, '}');
    assert Substitute("{" + body + "," + w + "}", '}') == u + ['}'];
    assert ']' !in u + ['}'];
    SubstituteWithoutCloser(u + ['}'], ']');
  }

  /**
   * An array whose last element is followed by a comma and whitespace is
   * cleaned to the array without them: `[1,2,]` becomes `[1,2]`.
   */
  lemma {:induction false} CleanJsonStringArrayTrailingComma(body: string, w: string)
    requires '}' !in body && ']' !in body && AllSpace(w)
    ensures CleanJsonString("[" + body + "," + w + "]") == "[" + body + "]"
  {
    var u := "[" + body;
    var s := "[" + body + "," + w + "]";
    assert '}' !in u && ']' !in u;
    assert s == u + [','] + w + [']'] + [];
    assert '}' !in s by {
      assert forall k :: 0 <= k < |w| ==> w[k] != '}';
    }
    SubstituteWithoutCloser(s, '}');
    RemovesCommaBeforeCloser(u, w, [], ']');
    SubstituteWithoutCloser(u, ']');
  }

  // ---------------------------------------------------------------------
  // What survives
  // ---------------------------------------------------------------------

  function Count(s: seq<char>, c: char): (n: nat)
    ensures n <= |s|
  {
    if s == [] then 0 else (if s[0] == c then 1 else 0) + Count(s[1..], c)
  }

  lemma {:induction false} CountKept(s: seq<char>, c: char)
    requires !IsDroppable(c)
    ensures Count(Kept(s), c) == Count(s, c)
  {
    if s != [] {
      CountKept(s[1..], c);
      if !IsDroppable(s[0]) {
        assert ([s[0]] + Kept(s[1..]))[1..] == Kept(s[1..]);
      }
    }
  }

  /** Every closing brace and bracket of the input is still in the output. */
  lemma {:induction false} CleanJsonStringKeepsClosers(s: seq<char>)
    ensures Count(CleanJsonString(s), '}') == Count(s, '}')
    ensures Count(CleanJsonString(s), ']') == Count(s, ']')
  {
    var r := CleanJsonString(s);
    CountKept(s, '}');
    CountKept(r, '}');
    CountKept(s, ']');
    CountKept(r, ']');
  }

  /** Deleting from a text with no whitespace at its ends leaves none there. */
  lemma {:induction false} SubstituteKeepsTrimmed(s: seq<char>, closer: char)
    requires IsCloser(closer) && Trimmed(s)
    ensures Trimmed(Substitute(s, closer))
  {
    if s != [] {
      SubstituteKeepsLast(s, closer);
    }
  }

  /** A pass never changes the last character. */
  lemma {:induction false} SubstituteKeepsLast(s: seq<char>, closer: char)
    requires IsCloser(closer) && s != []
    ensures Substitute(s, closer)[|Substitute(s, closer)| - 1] == s[|s| - 1]
  {
    var r := Substitute(s, closer);
    if MatchesAtFront(s, closer) {
      var rest := s[2 + SpaceRun(s[1..])..];
      if rest != [] {
        SubstituteKeepsLast(rest, closer);
      }
    } else if |s| > 1 {
      SubstituteKeepsLast(s[1..], closer);
    }
  }

  /** Cleaning a stripped reply leaves no whitespace at its ends. */
  lemma {:induction false} CleanJsonStringKeepsTrimmed(s: seq<char>)
    requires Trimmed(s)
    ensures Trimmed(CleanJsonString(s))
  {
    SubstituteKeepsTrimmed(s, '}');
    SubstituteKeepsTrimmed(Substitute(s, '}'), ']');
  }

  /**
   * Cleaning is not idempotent: removing one comma can leave another comma
   * right before the closer, as `,,}` becomes `,}` and only then `}`.
   */
  lemma {:induction false} CleanJsonStringNotIdempotent(w: string)
    requires AllSpace(w)
    ensures CleanJsonString("," + w + ",}") == "," + w + "}"
    ensures CleanJsonString("," + w + "}") == "}"
  {
    var u := "," + w;
    assert '}' !in u && ']' !in u by {
      assert forall k :: 0 <= k < |w| ==> w[k] != '}' && w[k] != ']';
    }
    assert "," + w + ",}" == u + [','] + [] + ['}'] + [];
    RemovesCommaBeforeCloser(u, [], [], '}');
    SubstituteWithoutCloser(u, '}');
    assert Substitute("," + w + ",}", '}') == u + ['}'];
    assert ']' !in u + ['}'];
    SubstituteWithoutCloser(u + ['}'], ']');
    assert u + ['}'] == "," + w + "}";
    assert "," + w + "}" == [] + [','] + w + ['}'] + [];
    RemovesCommaBeforeCloser([], w, [], '}');
    assert Substitute("," + w + "}", '}') == "}";
    SubstituteWithoutCloser("}", ']');
  }
}
