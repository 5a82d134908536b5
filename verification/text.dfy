/** String operations the views rely on (`trim`, `toLowerCase`, `includes`,
    `split`, `replace`), restricted to ASCII: whitespace is the six ASCII
    blanks and case mapping covers 'A'..'Z' only. */
module Text {

  /** ASCII whitespace: space, and tab through carriage return. */
  predicate IsSpace(c: char) {
    c == ' ' || ('\t' <= c <= '\r')
  }

  predicate AllSpace(s: string) {
    forall i :: 0 <= i < |s| ==> IsSpace(s[i])
  }

  /** Neither end of `s` is whitespace. */
  predicate Trimmed(s: string) {
    s != [] ==> !IsSpace(s[0]) && !IsSpace(s[|s| - 1])
  }

  /** One step of `TrimStart`: a leading blank joins the dropped run. */
  lemma DropOneMore(s: string, r: string)
    requires s != [] && IsSpace(s[0])
    requires |r| <= |s| - 1 && r == s[1..][|s| - 1 - |r|..] && AllSpace(s[1..][..|s| - 1 - |r|])
    ensures r == s[|s| - |r|..] && AllSpace(s[..|s| - |r|])
  {
    var k := |s| - |r|;
    assert s[1..][k - 1..] == s[k..];
    forall i | 0 <= i < k ensures IsSpace(s[i]) {
      if i > 0 {
        assert s[i] == s[1..][..k - 1][i - 1];
      }
    }
  }

  /** Drops leading whitespace: the result is a suffix of `s`, what was
      dropped is all whitespace, and the result does not start with a blank. */
  function TrimStart(s: string): (r: string)
    ensures |r| <= |s| && r == s[|s| - |r|..]
    ensures AllSpace(s[..|s| - |r|])
    ensures r != [] ==> !IsSpace(r[0])
  {
    if s != [] && IsSpace(s[0]) then
      var r := TrimStart(s[1..]);
      DropOneMore(s, r);
      r
    else s
  }

  /** Drops trailing whitespace: the result is a prefix of `s`, what was
      dropped is all whitespace, and the result does not end with a blank. */
  function TrimEnd(s: string): (r: string)
    ensures |r| <= |s| && r == s[..|r|]
    ensures AllSpace(s[|r|..])
    ensures r != [] ==> !IsSpace(r[|r| - 1])
  {
    if s != [] && IsSpace(s[|s| - 1]) then
      var r := TrimEnd(s[..|s| - 1]);
      assert s[|r|..] == s[..|s| - 1][|r|..] + [s[|s| - 1]];
      r
    else s
  }

  /** `s.trim()`: a contiguous piece of `s` with no blank at either end,
      empty exactly when `s` is all whitespace. */
  function Trim(s: string): (r: string)
    ensures |r| <= |s|
    ensures exists a, b :: s == a + r + b && AllSpace(a) && AllSpace(b)
    ensures Trimmed(r)
    ensures r == [] <==> AllSpace(s)
    ensures Trimmed(s) ==> r == s
  {
    var t := TrimStart(s);
    var r := TrimEnd(t);
    TrimFacts(s, t, r);
    r
  }

  /** What `TrimStart` then `TrimEnd` promise, put together. */
  lemma TrimFacts(s: string, t: string, r: string)
    requires |t| <= |s| && t == s[|s| - |t|..] && AllSpace(s[..|s| - |t|])
    requires t != [] ==> !IsSpace(t[0])
    requires |r| <= |t| && r == t[..|r|] && AllSpace(t[|r|..])
    requires r != [] ==> !IsSpace(r[|r| - 1])
    ensures |r| <= |s|
    ensures exists a, b :: s == a + r + b && AllSpace(a) && AllSpace(b)
    ensures Trimmed(r)
    ensures r == [] <==> AllSpace(s)
    ensures Trimmed(s) ==> r == s
  {
    var a, b := s[..|s| - |t|], t[|r|..];
    PieceOf(s, t, r);
    assert r != [] ==> r[0] == t[0];
    BlankIff(s, a, r, b);
    TrimmedUnchanged(s, a, r, b);
    assert s == a + r + b && AllSpace(a) && AllSpace(b);
  }

  /** Removing a prefix and then a suffix leaves a middle piece. */
  lemma PieceOf(s: string, t: string, r: string)
    requires |t| <= |s| && t == s[|s| - |t|..]
    requires |r| <= |t| && r == t[..|r|]
    ensures s == s[..|s| - |t|] + r + t[|r|..]
  {
    assert t == r + t[|r|..];
    assert s == s[..|s| - |t|] + t;
  }

  /** Between two blank runs, the middle piece is empty exactly when the
      whole text is blank, provided a non-empty middle starts with a
      non-blank. */
  lemma BlankIff(s: string, a: string, r: string, b: string)
    requires s == a + r + b && AllSpace(a) && AllSpace(b)
    requires r != [] ==> !IsSpace(r[0])
    ensures r == [] <==> AllSpace(s)
  {
    if r == [] {
      assert s == a + b;
      forall i | 0 <= i < |s| ensures IsSpace(s[i]) {
        if i < |a| {
          assert s[i] == a[i];
        } else {
          assert s[i] == b[i - |a|];
        }
      }
    } else {
      assert s[|a|] == r[0];
    }
  }

  /** Text that is already trimmed has no blank run to remove. */
  lemma TrimmedUnchanged(s: string, a: string, r: string, b: string)
    requires s == a + r + b && AllSpace(a) && AllSpace(b)
    ensures Trimmed(s) ==> r == s
  {
    if Trimmed(s) && s != [] {
      assert a == [] && b == [];
      assert s == r;
    }
  }

  /** The source's `!x.trim()` / `x.trim() === ""`: by `Trim`'s contract
      the trimmed text is empty exactly when every character is a blank. */
  predicate IsBlank(s: string) {
    AllSpace(s)
  }

  lemma {:induction false} TrimIdempotent(s: string)
    ensures Trim(Trim(s)) == Trim(s)
  {
  }

  function LowerChar(c: char): char {
    if 'A' <= c <= 'Z' then (c as int + 32) as char else c
  }

  /** `s.toLowerCase()` on ASCII letters: no capital is left, every other
      character is kept, and each capital becomes its small letter. */
  function ToLower(s: string): (r: string)
    ensures |r| == |s|
    ensures forall i :: 0 <= i < |r| ==> !('A' <= r[i] <= 'Z')
    ensures forall i :: 0 <= i < |s| && !('A' <= s[i] <= 'Z') ==> r[i] == s[i]
    ensures forall i :: 0 <= i < |s| && 'A' <= s[i] <= 'Z' ==> r[i] as int == s[i] as int + 32
  {
    seq(|s|, i requires 0 <= i < |s| => LowerChar(s[i]))
  }

  /** Lower-casing twice is lower-casing once. */
  lemma ToLowerIdempotent(s: string)
    ensures ToLower(ToLower(s)) == ToLower(s)
  {
  }

  /** `needle` occurs in `hay` at position `i`. */
  ghost predicate OccursAt(hay: string, needle: string, i: int) {
    0 <= i <= |hay| - |needle| && hay[i..i + |needle|] == needle
  }

  /** `hay.includes(needle)`, computed by scanning start positions. */
  function Contains(hay: string, needle: string): (b: bool)
    ensures b <==> exists i :: OccursAt(hay, needle, i)
    decreases |hay|
  {
    if |needle| > |hay| then
      assert forall i :: !OccursAt(hay, needle, i);
      false
    else if needle <= hay then
      assert OccursAt(hay, needle, 0);
      true
    else
      var b := Contains(hay[1..], needle);
      if b then
        assert exists i :: OccursAt(hay, needle, i) by {
          var i :| OccursAt(hay[1..], needle, i);
          assert hay[i + 1..i + 1 + |needle|] == hay[1..][i..i + |needle|];
          assert OccursAt(hay, needle, i + 1);
        }
        true
      else
        assert forall i :: !OccursAt(hay, needle, i) by {
          forall i ensures !OccursAt(hay, needle, i) {
            if i >= 1 && OccursAt(hay, needle, i) {
              assert hay[1..][i - 1..i - 1 + |needle|] == hay[i..i + |needle|];
              assert OccursAt(hay[1..], needle, i - 1);
            }
          }
        }
        false
  }

  /** Number of occurrences of `c` in `s`. */
  function Count(s: string, c: char): (n: nat)
    ensures n <= |s|
    ensures n == 0 <==> c !in s
  {
    if s == [] then 0 else (if s[0] == c then 1 else 0) + Count(s[1..], c)
  }

  /** Inverse of `Split`: the pieces glued back with `sep` between them. */
  function Join(parts: seq<string>, sep: char): string
    decreases |parts|
  {
    if parts == [] then []
    else if |parts| == 1 then parts[0]
    else parts[0] + [sep] + Join(parts[1..], sep)
  }

  /** `s.split(sep)` for a one-character separator: one more piece than there
      are separators, no piece contains `sep`, and `Join` gives `s` back. */
  function Split(s: string, sep: char): (r: seq<string>)
    ensures |r| == Count(s, sep) + 1
    ensures forall i :: 0 <= i < |r| ==> sep !in r[i]
    ensures Join(r, sep) == s
  {
    if s == [] then [[]]
    else
      var rest := Split(s[1..], sep);
      assert s == [s[0]] + s[1..];
      if s[0] == sep then
        JoinCons([[]] + rest, sep);
        assert ([[]] + rest)[1..] == rest;
        [[]] + rest
      else
        JoinGlue(s[0], rest, sep);
        [[s[0]] + rest[0]] + rest[1..]
  }

  /** Gluing a character to the first piece glues it to the joined string. */
  lemma JoinGlue(c: char, rest: seq<string>, sep: char)
    requires |rest| >= 1
    ensures Join([[c] + rest[0]] + rest[1..], sep) == [c] + Join(rest, sep)
  {
    var r := [[c] + rest[0]] + rest[1..];
    if |rest| >= 2 {
      JoinCons(r, sep);
      JoinCons(rest, sep);
      assert r[1..] == rest[1..];
    }
  }

  /** `Join` of two or more pieces: the first piece, a separator, the rest. */
  lemma JoinCons(parts: seq<string>, sep: char)
    requires |parts| >= 2
    ensures Join(parts, sep) == parts[0] + [sep] + Join(parts[1..], sep)
  {
  }

  /** `Split` of a string starting with a non-separator glues that character
      to the first piece of the rest. */
  lemma SplitCons(s: string, sep: char)
    requires s != [] && s[0] != sep
    ensures Split(s, sep) == [[s[0]] + Split(s[1..], sep)[0]] + Split(s[1..], sep)[1..]
  {
  }

  /** One step of the round trip below: a first piece that starts with a
      non-separator character reaches `Split` glued to the rest. */
  lemma SplitJoinStep(parts: seq<string>, sep: char)
    requires |parts| >= 2 && parts[0] != [] && parts[0][0] != sep
    requires Split(Join([parts[0][1..]] + parts[1..], sep), sep) == [parts[0][1..]] + parts[1..]
    ensures Split(Join(parts, sep), sep) == parts
  {
    var p := parts[0];
    var shorter := [p[1..]] + parts[1..];
    assert p == [p[0]] + p[1..];
    assert shorter[0] == p[1..] && shorter[1..] == parts[1..];
    assert parts == [[p[0]] + shorter[0]] + shorter[1..];
    JoinGlue(p[0], shorter, sep);
    var j := Join(parts, sep);
    assert j[1..] == Join(shorter, sep);
    SplitCons(j, sep);
  }

  /** The same step for an empty first piece: the joined string starts
      with the separator. */
  lemma SplitJoinEmptyStep(parts: seq<string>, sep: char)
    requires |parts| >= 2 && parts[0] == []
    requires Split(Join(parts[1..], sep), sep) == parts[1..]
    ensures Split(Join(parts, sep), sep) == parts
  {
    JoinCons(parts, sep);
    var j := Join(parts, sep);
    assert j == [sep] + Join(parts[1..], sep);
    assert j[1..] == Join(parts[1..], sep);
    assert parts == [[]] + parts[1..];
  }

  /** Dropping the first character of the first piece keeps every piece
      free of the separator. */
  lemma NoSepShorter(parts: seq<string>, sep: char)
    requires |parts| >= 1 && parts[0] != []
    requires forall i :: 0 <= i < |parts| ==> sep !in parts[i]
    ensures forall i :: 0 <= i < |[parts[0][1..]] + parts[1..]| ==> sep !in ([parts[0][1..]] + parts[1..])[i]
  {
    var p := parts[0];
    var shorter := [p[1..]] + parts[1..];
    assert p == [p[0]] + p[1..];
    forall i | 0 <= i < |shorter| ensures sep !in shorter[i] {
      if i > 0 {
        assert shorter[i] == parts[i];
      }
    }
  }

  /** The other round trip: pieces that do not contain `sep` survive
      `Join` followed by `Split`. */
  lemma {:induction false} SplitJoin(parts: seq<string>, sep: char)
    requires |parts| >= 1
    requires forall i :: 0 <= i < |parts| ==> sep !in parts[i]
    ensures Split(Join(parts, sep), sep) == parts
    decreases |parts|, |parts[0]|
  {
    if |parts| == 1 {
      SplitNoSep(parts[0], sep);
    } else if parts[0] == [] {
      assert forall i :: 0 <= i < |parts[1..]| ==> parts[1..][i] == parts[i + 1];
      SplitJoin(parts[1..], sep);
      SplitJoinEmptyStep(parts, sep);
    } else {
      assert parts[0][0] in parts[0];
      NoSepShorter(parts, sep);
      SplitJoin([parts[0][1..]] + parts[1..], sep);
      SplitJoinStep(parts, sep);
    }
  }

  /** A string without the separator is a single piece. */
  lemma {:induction false} SplitNoSep(s: string, sep: char)
    requires sep !in s
    ensures Split(s, sep) == [s]
    decreases |s|
  {
    if s != [] {
      assert sep !in s[1..] by {
        assert forall k :: 0 <= k < |s[1..]| ==> s[1..][k] == s[k + 1];
      }
      SplitNoSep(s[1..], sep);
      assert [s[0]] + s[1..] == s;
    }
  }

  /** Index of the first `c` in `s`, or `|s|` when there is none. */
  function IndexOf(s: string, c: char): (i: nat)
    ensures i <= |s|
    ensures i < |s| ==> s[i] == c
    ensures c !in s[..i]
    ensures i == |s| <==> c !in s
  {
    if s == [] then 0
    else if s[0] == c then 0
    else
      var j := IndexOf(s[1..], c);
      assert s[..j + 1] == [s[0]] + s[1..][..j];
      j + 1
  }

  /** `IndexOf` finds the first occurrence: a position holding `c` with no
      `c` before it is the answer. */
  lemma IndexOfAt(s: string, c: char, i: nat)
    requires i < |s| && s[i] == c && c !in s[..i]
    ensures IndexOf(s, c) == i
  {
  }

  /** `s.replace(from, to)` with one-character strings: only the first
      occurrence is replaced. */
  function ReplaceFirst(s: string, from: char, to: char): (r: string)
    ensures |r| == |s|
    ensures from !in s ==> r == s
    ensures from in s ==> r == s[IndexOf(s, from) := to]
  {
    var i := IndexOf(s, from);
    if i < |s| then s[i := to] else s
  }

  function DigitChar(d: nat): char
    requires d < 10
  {
    ['0', '1', '2', '3', '4', '5', '6', '7', '8', '9'][d]
  }

  /** Decimal rendering of a natural number (the source's string
      concatenation with a number). */
  function NatToString(n: nat): (r: string)
    ensures |r| >= 1
    ensures forall i :: 0 <= i < |r| ==> '0' <= r[i] <= '9'
  {
    if n < 10 then [DigitChar(n)] else NatToString(n / 10) + [DigitChar(n % 10)]
  }
}
