/** The JavaScript string operations the chat client and the server rely on:
    `trim`, `length`, `includes` and `split` on a character class.

    A string is a sequence of Unicode scalar values. JavaScript counts the
    length of a string in UTF-16 code units, so `Utf16Length` counts a
    character outside the Basic Multilingual Plane twice. `includes` and
    `split` on BMP separators give the same pieces whether a string is read
    as code points or as well-formed UTF-16, so they are stated on code points. */
module Text {

  /** The characters matched by `\s` in a JavaScript regular expression;
      `String.prototype.trim` strips the same set from both ends. */
  const JsWhitespace: set<char> :=
    set c: char | '\t' <= c <= '\r' || c == ' ' || c == '\U{00A0}' || c == '\U{1680}'
                  || '\U{2000}' <= c <= '\U{200A}' || c == '\U{2028}' || c == '\U{2029}'
                  || c == '\U{202F}' || c == '\U{205F}' || c == '\U{3000}' || c == '\U{FEFF}'

  // ---------------------------------------------------------------------------
  // length
  // ---------------------------------------------------------------------------

  /** The value of `s.length` in JavaScript: the number of UTF-16 code units. */
  function Utf16Length(s: string): (n: nat)
    ensures |s| <= n <= 2 * |s|
    ensures (forall i | 0 <= i < |s| :: s[i] as int < 0x1_0000) ==> n == |s|
    ensures |s| == 1 && s[0] as int >= 0x1_0000 ==> n == 2
  {
    if s == [] then 0
    else Utf16Length(s[..|s| - 1]) + (if s[|s| - 1] as int < 0x1_0000 then 1 else 2)
  }

  // ---------------------------------------------------------------------------
  // includes
  // ---------------------------------------------------------------------------

  /** `w` occurs in `s` starting at position `i`. */
  predicate OccursAt(s: string, w: string, i: nat) {
    i + |w| <= |s| && s[i..i + |w|] == w
  }

  /** `s.includes(w)`: exact, case-sensitive substring containment. Every
      string includes the empty string. */
  predicate Contains(s: string, w: string)
    ensures Contains(s, w) ==> |w| <= |s|
    ensures w == [] ==> Contains(s, w)
    ensures s == w ==> Contains(s, w)
  {
    assert w == [] ==> OccursAt(s, w, 0);
    assert s == w ==> OccursAt(s, w, 0);
    exists i | 0 <= i <= |s| - |w| :: OccursAt(s, w, i)
  }

  lemma ContainsPrefix(s: string, w: string)
    requires |w| <= |s| && s[..|w|] == w
    ensures Contains(s, w)
  {
    assert OccursAt(s, w, 0);
  }

  /** What a string includes, any longer string that ends with it includes too. */
  lemma ContainsExtend(a: string, t: string, w: string)
    requires Contains(t, w)
    ensures Contains(a + t, w)
  {
    var i :| 0 <= i <= |t| - |w| && OccursAt(t, w, i);
    assert (a + t)[|a| + i..|a| + i + |w|] == t[i..i + |w|];
    assert OccursAt(a + t, w, |a| + i);
  }

  /** An occurrence inside an occurrence is an occurrence. */
  lemma OccursWithin(s: string, t: string, w: string, p: nat, i: nat)
    requires OccursAt(s, t, p) && OccursAt(t, w, i)
    ensures OccursAt(s, w, p + i) && Contains(s, w)
  {
    forall k | 0 <= k < |w| ensures s[p + i..p + i + |w|][k] == w[k] {
      assert w[k] == t[i + k] == s[p..p + |t|][i + k];
    }
    assert OccursAt(s, w, p + i);
  }

  /** A substring of a string free of `seps` is free of `seps`. */
  lemma OccursNoneOf(t: string, w: string, i: nat, seps: set<char>)
    requires OccursAt(t, w, i) && NoneOf(t, seps)
    ensures NoneOf(w, seps)
  {
    forall k | 0 <= k < |w| ensures w[k] !in seps {
      assert w[k] == t[i + k];
    }
  }

  // ---------------------------------------------------------------------------
  // trim
  // ---------------------------------------------------------------------------

  /** `s` with the leading characters that belong to `ws` removed. */
  function TrimStart(s: string, ws: set<char>): (r: string)
    ensures |r| <= |s| && r == s[|s| - |r|..]
    ensures forall k | 0 <= k < |s| - |r| :: s[k] in ws
    ensures r != [] ==> r[0] !in ws
  {
    if s != [] && s[0] in ws then TrimStart(s[1..], ws) else s
  }

  /** `s` with the trailing characters that belong to `ws` removed. */
  function TrimEnd(s: string, ws: set<char>): (r: string)
    ensures |r| <= |s| && r == s[..|r|]
    ensures forall k | |r| <= k < |s| :: s[k] in ws
    ensures r != [] ==> r[|r| - 1] !in ws
  {
    if s != [] && s[|s| - 1] in ws then TrimEnd(s[..|s| - 1], ws) else s
  }

  /** `r` is `s` with a run of `ws` characters removed before position `i`
      and after position `i + |r|`. */
  predicate TrimmedAt(s: string, r: string, i: nat, ws: set<char>) {
    OccursAt(s, r, i)
    && (forall k | 0 <= k < i :: s[k] in ws)
    && (forall k | i + |r| <= k < |s| :: s[k] in ws)
  }

  /** A string that neither starts nor ends with a character of `ws`. */
  predicate IsTrimmed(r: string, ws: set<char>) {
    r != [] ==> r[0] !in ws && r[|r| - 1] !in ws
  }

  /** Stripping a run of `ws` from the front of `s` (giving `t`) and then from
      the back of `t` (giving `r`) leaves `r` trimmed inside `s`. */
  lemma StrippedBothEnds(s: string, t: string, r: string, ws: set<char>)
    requires |t| <= |s| && t == s[|s| - |t|..]
    requires forall k | 0 <= k < |s| - |t| :: s[k] in ws
    requires t != [] ==> t[0] !in ws
    requires |r| <= |t| && r == t[..|r|]
    requires forall k | |r| <= k < |t| :: t[k] in ws
    requires r != [] ==> r[|r| - 1] !in ws
    ensures IsTrimmed(r, ws)
    ensures TrimmedAt(s, r, |s| - |t|, ws)
    ensures r == [] <==> forall k | 0 <= k < |s| :: s[k] in ws
  {
    var i := |s| - |t|;
    assert s[i..][..|r|] == s[i..i + |r|];
    forall k | i + |r| <= k < |s| ensures s[k] in ws {
      assert s[k] == t[k - i];
    }
    if r == [] {
      assert t == [];
    } else {
      assert s[i] == r[0];
    }
  }

  /** `s` with the characters of `ws` stripped from both ends. */
  function TrimChars(s: string, ws: set<char>): (r: string)
    ensures exists i | 0 <= i <= |s| - |r| :: TrimmedAt(s, r, i, ws)
    ensures r == [] <==> forall k | 0 <= k < |s| :: s[k] in ws
  {
    var t := TrimStart(s, ws);
    var r := TrimEnd(t, ws);
    StrippedBothEnds(s, t, r, ws);
    r
  }

  /** `s.trim()`: a whitespace-free core of `s`, empty exactly when `s` is
      all whitespace. */
  function Trim(s: string): (r: string)
    ensures exists i | 0 <= i <= |s| - |r| :: TrimmedAt(s, r, i, JsWhitespace)
    ensures r == [] <==> forall k | 0 <= k < |s| :: s[k] in JsWhitespace
  {
    TrimChars(s, JsWhitespace)
  }

  /** The result of `trim` neither starts nor ends with whitespace. */
  lemma TrimIsTrimmed(s: string)
    ensures IsTrimmed(Trim(s), JsWhitespace)
  {
    var t := TrimStart(s, JsWhitespace);
    StrippedBothEnds(s, t, TrimEnd(t, JsWhitespace), JsWhitespace);
  }

  /** A string that neither starts nor ends with whitespace is its own trim;
      in particular `trim` is idempotent. */
  lemma TrimOfTrimmed(s: string)
    requires IsTrimmed(s, JsWhitespace)
    ensures Trim(s) == s
  {
    var r := Trim(s);
    var i :| 0 <= i <= |s| - |r| && TrimmedAt(s, r, i, JsWhitespace);
    if s != [] {
      assert s[0] !in JsWhitespace && s[|s| - 1] !in JsWhitespace;
      assert i == 0 && |r| == |s|;
    }
  }

  // ---------------------------------------------------------------------------
  // split on a character class, and its inverse
  // ---------------------------------------------------------------------------

  /** The number of characters of `s` that belong to `seps`. */
  function CountIn(s: string, seps: set<char>): (n: nat)
    ensures n <= |s|
  {
    if s == [] then 0 else (if s[0] in seps then 1 else 0) + CountIn(s[1..], seps)
  }

  /** The characters of `s` that belong to `seps`, in order. */
  function SeparatorsOf(s: string, seps: set<char>): (r: string)
    ensures |r| == CountIn(s, seps)
    ensures forall k | 0 <= k < |r| :: r[k] in seps
  {
    if s == [] then [] else (if s[0] in seps then [s[0]] else []) + SeparatorsOf(s[1..], seps)
  }

  predicate NoneOf(w: string, seps: set<char>) {
    forall k | 0 <= k < |w| :: w[k] !in seps
  }

  /** `s.split(re)` where `re` matches exactly one character of `seps`: the
      maximal runs between separators, empty runs included. The empty string
      splits into one empty piece. */
  function Split(s: string, seps: set<char>): (pieces: seq<string>)
    ensures |pieces| == CountIn(s, seps) + 1
    ensures forall k | 0 <= k < |pieces| :: NoneOf(pieces[k], seps)
  {
    if s == [] then [""]
    else
      var rest := Split(s[1..], seps);
      if s[0] in seps then [""] + rest
      else [[s[0]] + rest[0]] + rest[1..]
  }

  /** Joins `pieces` with the characters of `between`, one between each
      neighbouring pair. */
  function Join(pieces: seq<string>, between: string): (s: string)
    requires |pieces| == |between| + 1
  {
    if |pieces| == 1 then pieces[0]
    else pieces[0] + [between[0]] + Join(pieces[1..], between[1..])
  }

  /** Splitting loses nothing: putting the separators back between the
      pieces gives the original string. */
  lemma {:induction false} JoinSplit(s: string, seps: set<char>)
    ensures Join(Split(s, seps), SeparatorsOf(s, seps)) == s
  {
    if s != [] {
      var rest := Split(s[1..], seps);
      var between := SeparatorsOf(s[1..], seps);
      JoinSplit(s[1..], seps);
      if s[0] in seps {
        assert Split(s, seps)[1..] == rest;
      } else {
        var pieces := Split(s, seps);
        assert SeparatorsOf(s, seps) == between;
        assert pieces[1..] == rest[1..];
        if |rest| == 1 {
          assert Join(pieces, between) == [s[0]] + rest[0];
        } else {
          assert Join(pieces, between) == [s[0]] + rest[0] + [between[0]] + Join(rest[1..], between[1..]);
        }
        assert [s[0]] + s[1..] == s;
      }
    }
  }

  /** Every piece of a join occurs in the joined string. */
  lemma {:induction false} JoinContainsPieces(pieces: seq<string>, between: string, k: nat)
    requires |pieces| == |between| + 1 && k < |pieces|
    ensures Contains(Join(pieces, between), pieces[k])
  {
    if k == 0 {
      if |pieces| == 1 {
        ContainsPrefix(pieces[0], pieces[0]);
      } else {
        var s := Join(pieces, between);
        assert s[..|pieces[0]|] == pieces[0];
        ContainsPrefix(s, pieces[0]);
      }
    } else {
      JoinContainsPieces(pieces[1..], between[1..], k - 1);
      ContainsExtend(pieces[0] + [between[0]], Join(pieces[1..], between[1..]), pieces[k]);
    }
  }

  /** Every piece of a split occurs in the string that was split. */
  lemma SplitPiecesOccur(s: string, seps: set<char>)
    ensures forall k | 0 <= k < |Split(s, seps)| :: Contains(s, Split(s, seps)[k])
  {
    JoinSplit(s, seps);
    forall k | 0 <= k < |Split(s, seps)| ensures Contains(s, Split(s, seps)[k]) {
      JoinContainsPieces(Split(s, seps), SeparatorsOf(s, seps), k);
    }
  }
}
