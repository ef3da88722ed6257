/**
 * Parsing of the post form's skills field: the text is split on commas, each
 * piece is trimmed as ECMAScript's `String.prototype.trim` does, and the
 * pieces left empty are dropped.
 *
 * The functions are plain definitions; what they mean is stated by the lemmas
 * beside them, which the proofs call where they need it.
 */
module Skills {

  /** The code points ECMAScript calls WhiteSpace or LineTerminator: the ones `trim` strips. */
  predicate IsWhitespace(c: char) {
    var n := c as int;
    n == 0x09 || n == 0x0A || n == 0x0B || n == 0x0C || n == 0x0D
    || n == 0x20 || n == 0xA0 || n == 0x1680 || (0x2000 <= n <= 0x200A)
    || n == 0x2028 || n == 0x2029 || n == 0x202F || n == 0x205F
    || n == 0x3000 || n == 0xFEFF
  }

  predicate IsTrimmed(s: string) {
    s == [] || (!IsWhitespace(s[0]) && !IsWhitespace(s[|s| - 1]))
  }

  /** A skill as the parser can produce it. */
  predicate WellFormedSkill(s: string) {
    s != [] && IsTrimmed(s) && ',' !in s
  }

  /** `r` is `s` with whitespace cut off: the part of `s` from `i` on, and only whitespace around it. */
  predicate CutAt(s: string, i: int, r: string) {
    0 <= i <= |s| - |r| && r == s[i..i + |r|]
    && (forall k :: 0 <= k < i ==> IsWhitespace(s[k]))
    && (forall k :: i + |r| <= k < |s| ==> IsWhitespace(s[k]))
  }

  // ---------------------------------------------------------------------------
  // The pipeline `skills.split(',').map(s => s.trim()).filter(s => s)`

  /** `s` without its leading whitespace. */
  function TrimStart(s: string): string {
    if s != [] && IsWhitespace(s[0]) then TrimStart(s[1..]) else s
  }

  /** `s` without its trailing whitespace. */
  function TrimEnd(s: string): string {
    if s != [] && IsWhitespace(s[|s| - 1]) then TrimEnd(s[..|s| - 1]) else s
  }

  /** `s.trim()` */
  function Trim(s: string): string {
    TrimEnd(TrimStart(s))
  }

  /** JavaScript's `split(sep)` on a one-character separator: "" gives [""], "a,,b" gives ["a", "", "b"]. */
  function Split(s: string, sep: char): (pieces: seq<string>)
    ensures |pieces| >= 1
  {
    if s == [] then [[]]
    else
      var rest := Split(s[1..], sep);
      if s[0] == sep then [[]] + rest
      else [[s[0]] + rest[0]] + rest[1..]
  }

  /** `.map(s => s.trim())` */
  function TrimAll(pieces: seq<string>): seq<string> {
    if pieces == [] then [] else [Trim(pieces[0])] + TrimAll(pieces[1..])
  }

  /** `.filter(s => s)`: the empty string is falsy, every other string is kept. */
  function DropEmpty(pieces: seq<string>): seq<string> {
    if pieces == [] then []
    else (if pieces[0] == [] then [] else [pieces[0]]) + DropEmpty(pieces[1..])
  }

  /**
   * The whole chain. Every skill it yields is non-empty, trimmed and
   * comma-free; the lemmas below say which skills and in which order.
   */
  function ParseSkills(input: string): (skills: seq<string>)
    ensures forall k :: 0 <= k < |skills| ==> WellFormedSkill(skills[k])
  {
    ParsedSkillsWellFormed(input);
    DropEmpty(TrimAll(Split(input, ',')))
  }

  /** The inverse of Split: the pieces glued together with `sep` between them. */
  function Join(pieces: seq<string>, sep: char): string
    requires |pieces| >= 1
  {
    if |pieces| == 1 then pieces[0] else pieces[0] + [sep] + Join(pieces[1..], sep)
  }

  /** The skills shown back as text, as the form's placeholder writes them: "React, Figma, Teamwork". */
  function FormatSkills(skills: seq<string>): string {
    if skills == [] then []
    else if |skills| == 1 then skills[0]
    else skills[0] + ", " + FormatSkills(skills[1..])
  }

  // ---------------------------------------------------------------------------
  // Trimming

  /** TrimStart cuts a whitespace prefix and leaves a suffix that does not start with whitespace. */
  lemma TrimStartSpec(s: string)
    ensures |TrimStart(s)| <= |s|
    ensures TrimStart(s) == s[|s| - |TrimStart(s)|..]
    ensures forall k :: 0 <= k < |s| - |TrimStart(s)| ==> IsWhitespace(s[k])
    ensures TrimStart(s) != [] ==> !IsWhitespace(TrimStart(s)[0])
  {
    TrimStartSuffix(s);
    TrimStartCut(s);
  }

  lemma {:induction false} TrimStartSuffix(s: string)
    ensures |TrimStart(s)| <= |s| && TrimStart(s) == s[|s| - |TrimStart(s)|..]
    ensures TrimStart(s) != [] ==> !IsWhitespace(TrimStart(s)[0])
  {
    if s != [] && IsWhitespace(s[0]) {
      var t := s[1..];
      TrimStartSuffix(t);
      assert t[|t| - |TrimStart(t)|..] == s[|s| - |TrimStart(t)|..];
    }
  }

  lemma {:induction false} TrimStartCut(s: string)
    ensures forall k :: 0 <= k < |s| - |TrimStart(s)| ==> IsWhitespace(s[k])
  {
    if s != [] && IsWhitespace(s[0]) {
      var t := s[1..];
      TrimStartCut(t);
      forall k | 0 < k < |s| - |TrimStart(t)| ensures IsWhitespace(s[k]) {
        assert s[k] == t[k - 1];
      }
    }
  }

  /** TrimEnd cuts a whitespace suffix and leaves a prefix that does not end with whitespace. */
  lemma TrimEndSpec(s: string)
    ensures |TrimEnd(s)| <= |s|
    ensures TrimEnd(s) == s[..|TrimEnd(s)|]
    ensures forall k :: |TrimEnd(s)| <= k < |s| ==> IsWhitespace(s[k])
    ensures TrimEnd(s) != [] ==> !IsWhitespace(TrimEnd(s)[|TrimEnd(s)| - 1])
  {
    TrimEndPrefix(s);
    TrimEndCut(s);
  }

  lemma {:induction false} TrimEndPrefix(s: string)
    ensures |TrimEnd(s)| <= |s| && TrimEnd(s) == s[..|TrimEnd(s)|]
    ensures TrimEnd(s) != [] ==> !IsWhitespace(TrimEnd(s)[|TrimEnd(s)| - 1])
  {
    if s != [] && IsWhitespace(s[|s| - 1]) {
      var t := s[..|s| - 1];
      TrimEndPrefix(t);
      assert t[..|TrimEnd(t)|] == s[..|TrimEnd(t)|];
    }
  }

  lemma {:induction false} TrimEndCut(s: string)
    ensures forall k :: |TrimEnd(s)| <= k < |s| ==> IsWhitespace(s[k])
  {
    if s != [] && IsWhitespace(s[|s| - 1]) {
      var t := s[..|s| - 1];
      TrimEndCut(t);
      forall k | |TrimEnd(t)| <= k < |s| - 1 ensures IsWhitespace(s[k]) {
        assert s[k] == t[k];
      }
    }
  }

  /**
   * `trim` leaves the stretch of `s` that remains once whitespace is cut off
   * both ends: the result neither starts nor ends with whitespace, only
   * whitespace was cut, and a string already trimmed comes back as it is.
   */
  lemma TrimSpec(s: string)
    ensures IsTrimmed(Trim(s))
    ensures exists i :: CutAt(s, i, Trim(s))
    ensures IsTrimmed(s) ==> Trim(s) == s
  {
    var t := TrimStart(s);
    TrimStartSpec(s);
    TrimEndSpec(t);
    assert CutAt(s, |s| - |t|, Trim(s));
  }

  /** Text without a comma keeps none after trimming. */
  lemma TrimCommaFree(p: string)
    requires ',' !in p
    ensures ',' !in Trim(p)
  {
    TrimSpec(p);
    var i :| CutAt(p, i, Trim(p));
  }

  lemma TrimSkipsWhitespace(c: char, s: string)
    requires IsWhitespace(c)
    ensures Trim([c] + s) == Trim(s)
  {
    assert ([c] + s)[1..] == s;
  }

  // ---------------------------------------------------------------------------
  // Split and Join are inverse to each other.

  /** No piece of a split holds the separator. */
  lemma {:induction false} SplitSeparatorFree(s: string, sep: char)
    ensures forall k :: 0 <= k < |Split(s, sep)| ==> sep !in Split(s, sep)[k]
  {
    if s != [] {
      SplitSeparatorFree(s[1..], sep);
    }
  }

  lemma {:induction false} JoinSplit(s: string, sep: char)
    ensures Join(Split(s, sep), sep) == s
  {
    if s != [] {
      var rest := Split(s[1..], sep);
      JoinSplit(s[1..], sep);
      if s[0] == sep {
        assert Split(s, sep) == [[]] + rest;
        assert ([[]] + rest)[1..] == rest;
        assert s == [sep] + s[1..];
      } else {
        var pieces := [[s[0]] + rest[0]] + rest[1..];
        assert Split(s, sep) == pieces;
        if |rest| == 1 {
          assert s == [s[0]] + rest[0];
        } else {
          assert pieces[1..] == rest[1..];
          assert Join(rest, sep) == rest[0] + [sep] + Join(rest[1..], sep);
          assert s == [s[0]] + s[1..];
        }
      }
    }
  }

  lemma {:induction false} SplitJoin(pieces: seq<string>, sep: char)
    requires |pieces| >= 1
    requires forall k :: 0 <= k < |pieces| ==> sep !in pieces[k]
    ensures Split(Join(pieces, sep), sep) == pieces
  {
    if |pieces| == 1 {
      SplitWithoutSeparator(pieces[0], sep);
    } else {
      SplitJoin(pieces[1..], sep);
      SplitAround(pieces[0], Join(pieces[1..], sep), sep);
      SplitWithoutSeparator(pieces[0], sep);
      assert pieces == [pieces[0]] + pieces[1..];
    }
  }

  /** A string with no separator is one piece. */
  lemma {:induction false} SplitWithoutSeparator(s: string, sep: char)
    requires sep !in s
    ensures Split(s, sep) == [s]
  {
    if s != [] {
      SplitWithoutSeparator(s[1..], sep);
      assert s == [s[0]] + s[1..];
    }
  }

  /** Splitting text that has a separator in it splits each side on its own. */
  lemma {:induction false} SplitAround(a: string, b: string, sep: char)
    ensures Split(a + [sep] + b, sep) == Split(a, sep) + Split(b, sep)
  {
    if a == [] {
      assert a + [sep] + b == [sep] + b;
      SplitStep(sep, b, sep);
    } else {
      var c, t := a[0], a[1..] + [sep] + b;
      SplitAround(a[1..], b, sep);
      SplitStepAppend(c, t, Split(a[1..], sep), Split(b, sep), sep);
      SplitStep(c, a[1..], sep);
      assert a + [sep] + b == [c] + t;
      assert a == [c] + a[1..];
    }
  }

  /** A step of Split in front of text whose pieces are `front + back`. */
  lemma SplitStepAppend(c: char, t: string, front: seq<string>, back: seq<string>, sep: char)
    requires |front| >= 1 && Split(t, sep) == front + back
    ensures Split([c] + t, sep) ==
      (if c == sep then [[]] + front else [[c] + front[0]] + front[1..]) + back
  {
    SplitStep(c, t, sep);
    if c != sep {
      assert (front + back)[0] == front[0];
      assert (front + back)[1..] == front[1..] + back;
    }
  }

  /** One step of Split, on the first character. */
  lemma SplitStep(c: char, s: string, sep: char)
    ensures Split([c] + s, sep) ==
      if c == sep then [[]] + Split(s, sep)
      else [[c] + Split(s, sep)[0]] + Split(s, sep)[1..]
  {
    assert ([c] + s)[1..] == s;
  }

  // ---------------------------------------------------------------------------
  // Mapping and filtering

  lemma {:induction false} TrimAllSpec(pieces: seq<string>)
    ensures |TrimAll(pieces)| == |pieces|
    ensures forall k :: 0 <= k < |pieces| ==> TrimAll(pieces)[k] == Trim(pieces[k])
  {
    if pieces != [] {
      TrimAllSpec(pieces[1..]);
    }
  }

  lemma {:induction false} TrimAllAppend(a: seq<string>, b: seq<string>)
    ensures TrimAll(a + b) == TrimAll(a) + TrimAll(b)
  {
    if a == [] {
      assert a + b == b;
    } else {
      assert (a + b)[1..] == a[1..] + b;
      TrimAllAppend(a[1..], b);
    }
  }

  /** A piece is kept if and only if it is in the input and is not empty. */
  lemma {:induction false} DropEmptyMembers(pieces: seq<string>, p: string)
    ensures p in DropEmpty(pieces) <==> p in pieces && p != []
  {
    if pieces != [] {
      DropEmptyMembers(pieces[1..], p);
      assert pieces == [pieces[0]] + pieces[1..];
    }
  }

  lemma {:induction false} DropEmptyAppend(a: seq<string>, b: seq<string>)
    ensures DropEmpty(a + b) == DropEmpty(a) + DropEmpty(b)
  {
    if a == [] {
      assert a + b == b;
    } else {
      assert (a + b)[1..] == a[1..] + b;
      DropEmptyAppend(a[1..], b);
    }
  }

  // ---------------------------------------------------------------------------
  // What ParseSkills gives

  /** Every parsed skill is non-empty, has no whitespace at either end and no comma. */
  lemma ParsedSkillsWellFormed(input: string)
    ensures forall k :: 0 <= k < |DropEmpty(TrimAll(Split(input, ',')))| ==>
      WellFormedSkill(DropEmpty(TrimAll(Split(input, ',')))[k])
  {
    var pieces := Split(input, ',');
    var trimmed := TrimAll(pieces);
    var r := DropEmpty(trimmed);
    SplitSeparatorFree(input, ',');
    TrimAllSpec(pieces);
    forall k | 0 <= k < |r| ensures WellFormedSkill(r[k]) {
      DropEmptyMembers(trimmed, r[k]);
      var m :| 0 <= m < |trimmed| && trimmed[m] == r[k];
      TrimSpec(pieces[m]);
      TrimCommaFree(pieces[m]);
    }
  }

  /**
   * ParseSkills keeps the order of the text: it distributes over the commas,
   * and (ParseSkillsPiece) a comma-free piece yields its trimmed text unless
   * that is empty.
   */
  lemma ParseSkillsAround(a: string, b: string)
    ensures ParseSkills(a + [','] + b) == ParseSkills(a) + ParseSkills(b)
  {
    SplitAround(a, b, ',');
    var pa, pb := Split(a, ','), Split(b, ',');
    TrimAllAppend(pa, pb);
    DropEmptyAppend(TrimAll(pa), TrimAll(pb));
  }

  lemma ParseSkillsPiece(p: string)
    requires ',' !in p
    ensures ParseSkills(p) == if Trim(p) == [] then [] else [Trim(p)]
  {
    SplitWithoutSeparator(p, ',');
    assert TrimAll([p]) == [Trim(p)] + TrimAll([]);
    assert DropEmpty([Trim(p)]) == (if Trim(p) == [] then [] else [Trim(p)]) + DropEmpty([]);
  }

  /** Leading whitespace changes nothing: it only reaches the first piece, which is trimmed. */
  lemma ParseSkillsSkipsWhitespace(c: char, s: string)
    requires IsWhitespace(c)
    ensures ParseSkills([c] + s) == ParseSkills(s)
  {
    var rest := Split(s, ',');
    var first, tail := [c] + rest[0], rest[1..];
    SplitStep(c, s, ',');
    assert c != ',';
    calc {
      TrimAll(Split([c] + s, ','));
      TrimAll([first] + tail);
      { TrimAllAppend([first], tail); }
      TrimAll([first]) + TrimAll(tail);
      { TrimSkipsWhitespace(c, rest[0]); TrimAllOne(first); TrimAllOne(rest[0]); }
      TrimAll([rest[0]]) + TrimAll(tail);
      { TrimAllAppend([rest[0]], tail); }
      TrimAll([rest[0]] + tail);
      { assert [rest[0]] + tail == rest; }
      TrimAll(rest);
    }
  }

  lemma TrimAllOne(x: string)
    ensures TrimAll([x]) == [Trim(x)]
  {
    assert [x][1..] == [];
  }

  /** Skills written out the way the form suggests parse back to themselves. */
  lemma {:induction false} ParseFormatted(skills: seq<string>)
    requires forall k :: 0 <= k < |skills| ==> WellFormedSkill(skills[k])
    ensures ParseSkills(FormatSkills(skills)) == skills
  {
    if skills == [] {
      TrimAllOne([]);
    } else if |skills| == 1 {
      TrimSpec(skills[0]);
      ParseSkillsPiece(skills[0]);
    } else {
      ParseFormatted(skills[1..]);
      ParseListed(skills[0], FormatSkills(skills[1..]));
      assert skills == [skills[0]] + skills[1..];
    }
  }

  /** One well-formed skill, a comma and a space in front of some text add that skill in front. */
  lemma ParseListed(head: string, tail: string)
    requires WellFormedSkill(head)
    ensures ParseSkills(head + ", " + tail) == [head] + ParseSkills(tail)
  {
    assert head + ", " + tail == head + [','] + ([' '] + tail);
    ParseSkillsAround(head, [' '] + tail);
    TrimSpec(head);
    ParseSkillsPiece(head);
    ParseSkillsSkipsWhitespace(' ', tail);
  }
}
