/**
 * The handful of Python string operations the generator relies on (`lower`,
 * `upper`, `capitalize`, `split`, `join`, `replace` of one character, the
 * substring test `in`, `startswith`/`endswith` and `str` of a natural number),
 * stated over `seq<char>`. Case mapping covers ASCII letters only.
 */
module Text {

  predicate IsUpper(c: char) { 'A' <= c <= 'Z' }

  predicate IsLower(c: char) { 'a' <= c <= 'z' }

  predicate NotUpper(c: char) { !IsUpper(c) }

  /** `c.lower()`: an upper-case letter becomes lower case, anything else is kept. */
  function LowerChar(c: char): (r: char)
    ensures !IsUpper(r)
    ensures IsUpper(c) || r == c
    ensures IsUpper(c) ==> IsLower(r)
  {
    if IsUpper(c) then (c as int + 32) as char else c
  }

  /** `c.upper()`: a lower-case letter becomes upper case, anything else is kept. */
  function UpperChar(c: char): (r: char)
    ensures !IsLower(r)
    ensures IsLower(c) || r == c
    ensures IsLower(c) ==> IsUpper(r) && LowerChar(r) == c
  {
    if IsLower(c) then (c as int - 32) as char else c
  }

  function Lower(s: string): (r: string)
    ensures |r| == |s|
    ensures forall i :: 0 <= i < |s| ==> r[i] == LowerChar(s[i])
  {
    seq(|s|, i requires 0 <= i < |s| => LowerChar(s[i]))
  }

  /** `w.capitalize()`: first character upper case, the rest lower case. */
  function Capitalize(w: string): (r: string)
    ensures |r| == |w|
  {
    if w == [] then [] else [UpperChar(w[0])] + Lower(w[1..])
  }

  /** Every word capitalised, in order. */
  function CapitalizeAll(ws: seq<string>): (r: seq<string>)
    ensures |r| == |ws|
    ensures forall i :: 0 <= i < |ws| ==> r[i] == Capitalize(ws[i])
  {
    if ws == [] then [] else [Capitalize(ws[0])] + CapitalizeAll(ws[1..])
  }

  /** Every character of `s` satisfies `p`. */
  predicate All(s: string, p: char -> bool)
  {
    forall i :: 0 <= i < |s| ==> p(s[i])
  }

  /** The string with its first character lower-cased and the rest kept. */
  function LowerFirst(s: string): (r: string)
    requires s != []
    ensures |r| == |s| && r[1..] == s[1..]
  {
    [LowerChar(s[0])] + s[1..]
  }

  lemma LowerFirstAppend(a: string, b: string)
    requires a != []
    ensures LowerFirst(a + b) == LowerFirst(a) + b
  {
    assert (a + b)[1..] == a[1..] + b;
  }

  /** `s.replace(from, to)` for single characters. */
  function ReplaceChar(s: string, from: char, to: char): (r: string)
    ensures |r| == |s|
    ensures forall i :: 0 <= i < |s| ==> r[i] == if s[i] == from then to else s[i]
  {
    seq(|s|, i requires 0 <= i < |s| => if s[i] == from then to else s[i])
  }

  predicate HasPrefix(s: string, p: string) { |p| <= |s| && s[..|p|] == p }

  predicate HasSuffix(s: string, p: string) { |p| <= |s| && s[|s| - |p|..] == p }

  /** Python's `t in s` for strings: `t` occurs in `s` as a contiguous block. */
  predicate Contains(s: string, t: string)
    decreases |s|
  {
    HasPrefix(s, t) || (s != [] && Contains(s[1..], t))
  }

  /** The pieces run together with nothing between them (Python's `str.join` on `''`). */
  function Concat(ws: seq<string>): string
  {
    if ws == [] then "" else ws[0] + Concat(ws[1..])
  }

  /** The pieces with `sep` between each two (Python's `str.join`). */
  function Join(ws: seq<string>, sep: string): string
  {
    if ws == [] then "" else if |ws| == 1 then ws[0] else ws[0] + sep + Join(ws[1..], sep)
  }

  /**
   * `s.split(sep)` with an explicit separator: always at least one piece, and
   * empty pieces where separators are adjacent or at either end.
   */
  function Split(s: string, sep: char): (r: seq<string>)
    ensures |r| >= 1
    ensures forall w <- r :: sep !in w
  {
    if s == [] then [""]
    else
      var rest := Split(s[1..], sep);
      if s[0] == sep then [""] + rest
      else [[s[0]] + rest[0]] + rest[1..]
  }

  /** `s` with every occurrence of `c` removed. */
  function Without(s: string, c: char): (r: string)
    ensures c !in r
    ensures forall x <- r :: x in s
  {
    if s == [] then [] else if s[0] == c then Without(s[1..], c) else [s[0]] + Without(s[1..], c)
  }

  function DigitChar(d: nat): (c: char)
    requires d < 10
  {
    "0123456789"[d]
  }

  /** `str(n)` for a natural number: its decimal digits. */
  function NatToString(n: nat): (r: string)
    ensures r != []
  {
    if n < 10 then [DigitChar(n)] else NatToString(n / 10) + [DigitChar(n % 10)]
  }

  /** The value of a string of decimal digits. */
  function ParseNat(s: string): nat
  {
    if s == [] then 0
    else
      var c := s[|s| - 1];
      ParseNat(s[..|s| - 1]) * 10 + (if '0' <= c <= '9' then c as int - '0' as int else 0)
  }

  // ----- Lemmas -----------------------------------------------------------

  /** Reading the decimal rendering back gives the number again. */
  lemma {:induction false} NatToStringRoundTrip(n: nat)
    ensures ParseNat(NatToString(n)) == n
  {
    var s := NatToString(n);
    if n < 10 {
      assert s[..|s| - 1] == [];
    } else {
      var d := DigitChar(n % 10);
      assert s[..|s| - 1] == NatToString(n / 10) && s[|s| - 1] == d;
      NatToStringRoundTrip(n / 10);
    }
  }

  /** Joining the pieces of a split on the same separator gives the string back: splitting loses nothing. */
  lemma {:induction false} JoinSplit(s: string, sep: char)
    ensures Join(Split(s, sep), [sep]) == s
  {
    if s != [] {
      var rest := Split(s[1..], sep);
      JoinSplit(s[1..], sep);
      if s[0] == sep {
        assert Join([""] + rest, [sep]) == "" + [sep] + Join(rest, [sep]);
      } else if |rest| == 1 {
        assert Split(s, sep) == [[s[0]] + rest[0]];
      } else {
        var r := Split(s, sep);
        assert r[1..] == rest[1..];
        assert Join(rest, [sep]) == rest[0] + [sep] + Join(rest[1..], [sep]);
      }
    }
  }

  /** Running the pieces of a split together gives the string with the separators dropped. */
  lemma {:induction false} ConcatSplit(s: string, c: char)
    ensures Concat(Split(s, c)) == Without(s, c)
  {
    if s != [] {
      ConcatSplit(s[1..], c);
      var rest := Split(s[1..], c);
      if s[0] == c {
        assert Concat([""] + rest) == "" + Concat(rest);
      } else {
        var r := Split(s, c);
        assert r[1..] == rest[1..];
        assert Concat(rest) == rest[0] + Concat(rest[1..]);
      }
    }
  }

  lemma {:induction false} WithoutKeepsOthers(s: string, c: char, i: nat)
    requires i < |s| && s[i] != c
    ensures Without(s, c) != []
  {
    if s[0] == c {
      WithoutKeepsOthers(s[1..], c, i - 1);
    }
  }

  lemma ContainsPrefix(s: string, t: string)
    requires HasPrefix(s, t)
    ensures Contains(s, t)
  {
  }

  /** An occurrence in `b` is an occurrence in `a + b`. */
  lemma {:induction false} ContainsInRight(a: string, b: string, t: string)
    requires Contains(b, t)
    ensures Contains(a + b, t)
    decreases |a|
  {
    if a == [] {
      assert a + b == b;
    } else {
      assert (a + b)[1..] == a[1..] + b;
      ContainsInRight(a[1..], b, t);
    }
  }

  /** An occurrence in `a` is an occurrence in `a + b`. */
  lemma {:induction false} ContainsInLeft(a: string, b: string, t: string)
    requires Contains(a, t)
    ensures Contains(a + b, t)
    decreases |a|
  {
    if HasPrefix(a, t) {
      assert (a + b)[..|t|] == a[..|t|];
    } else {
      assert (a + b)[1..] == a[1..] + b;
      ContainsInLeft(a[1..], b, t);
    }
  }

  /** An occurrence in `m` is an occurrence in `a + m + b`. */
  lemma ContainsInMiddle(a: string, m: string, b: string, t: string)
    requires Contains(m, t)
    ensures Contains(a + m + b, t)
  {
    ContainsInRight(a, m, t);
    ContainsInLeft(a + m, b, t);
  }

  /** Occurrence is transitive: `t in m` and `m in s` give `t in s`. */
  lemma {:induction false} ContainsTrans(s: string, m: string, t: string)
    requires Contains(s, m) && Contains(m, t)
    ensures Contains(s, t)
    decreases |s|
  {
    if HasPrefix(s, m) {
      assert s == m + s[|m|..];
      ContainsInLeft(m, s[|m|..], t);
    } else {
      ContainsTrans(s[1..], m, t);
    }
  }

  /** A block that holds a character `s` lacks cannot occur in `s`. */
  lemma {:induction false} NotContainsMissingChar(s: string, t: string, k: nat)
    requires k < |t| && t[k] !in s
    ensures !Contains(s, t)
    decreases |s|
  {
    if |t| <= |s| {
      assert s[..|t|][k] == s[k];
    }
    if s != [] {
      NotContainsMissingChar(s[1..], t, k);
    }
  }

  /** Every piece of a concatenation occurs in it. */
  lemma {:induction false} ContainsConcat(ws: seq<string>, i: nat, t: string)
    requires i < |ws| && Contains(ws[i], t)
    ensures Contains(Concat(ws), t)
  {
    if i == 0 {
      ContainsInLeft(ws[0], Concat(ws[1..]), t);
    } else {
      ContainsConcat(ws[1..], i - 1, t);
      ContainsInRight(ws[0], Concat(ws[1..]), t);
    }
  }

  /** What two neighbouring pieces spell together occurs in the concatenation. */
  lemma {:induction false} ContainsAdjacent(ws: seq<string>, i: nat, t: string)
    requires i + 1 < |ws| && Contains(ws[i] + ws[i + 1], t)
    ensures Contains(Concat(ws), t)
  {
    if i == 0 {
      assert ws[1..][1..] == ws[2..];
      assert Concat(ws) == (ws[0] + ws[1]) + Concat(ws[2..]);
      ContainsInLeft(ws[0] + ws[1], Concat(ws[2..]), t);
    } else {
      assert ws[1..][i - 1] == ws[i] && ws[1..][i] == ws[i + 1];
      ContainsAdjacent(ws[1..], i - 1, t);
      ContainsInRight(ws[0], Concat(ws[1..]), t);
    }
  }

  /** Every piece of a join occurs in it. */
  lemma {:induction false} ContainsJoin(ws: seq<string>, sep: string, i: nat, t: string)
    requires i < |ws| && Contains(ws[i], t)
    ensures Contains(Join(ws, sep), t)
  {
    if |ws| > 1 {
      if i == 0 {
        ContainsInLeft(ws[0], sep + Join(ws[1..], sep), t);
        assert ws[0] + sep + Join(ws[1..], sep) == ws[0] + (sep + Join(ws[1..], sep));
      } else {
        ContainsJoin(ws[1..], sep, i - 1, t);
        ContainsInRight(ws[0] + sep, Join(ws[1..], sep), t);
      }
    }
  }

  /** Replacing `c` by `d` in a join on `c` gives the join on `d`, when no piece holds `c`. */
  lemma {:induction false} ReplaceJoin(ws: seq<string>, c: char, d: char)
    requires forall w <- ws :: c !in w
    ensures ReplaceChar(Join(ws, [c]), c, d) == Join(ws, [d])
  {
    if ws == [] {
    } else if |ws| == 1 {
      ReplaceAbsent(ws[0], c, d);
    } else {
      ReplaceJoin(ws[1..], c, d);
      ReplaceAbsent(ws[0], c, d);
      ReplaceAppend(ws[0], [c] + Join(ws[1..], [c]), c, d);
      ReplaceAppend([c], Join(ws[1..], [c]), c, d);
      assert ws[0] + [c] + Join(ws[1..], [c]) == ws[0] + ([c] + Join(ws[1..], [c]));
    }
  }

  lemma ReplaceAbsent(s: string, c: char, d: char)
    requires c !in s
    ensures ReplaceChar(s, c, d) == s
  {
  }

  lemma ReplaceAppend(a: string, b: string, c: char, d: char)
    ensures ReplaceChar(a + b, c, d) == ReplaceChar(a, c, d) + ReplaceChar(b, c, d)
  {
  }

  /** Splitting a join on a separator no piece holds gives the pieces back. */
  lemma {:induction false} SplitJoin(ws: seq<string>, sep: char)
    requires |ws| >= 1 && forall w <- ws :: sep !in w
    ensures Split(Join(ws, [sep]), sep) == ws
  {
    if |ws| == 1 {
      SplitNoSep(ws[0], sep);
    } else {
      SplitJoin(ws[1..], sep);
      SplitPrefix(ws[0], [sep] + Join(ws[1..], [sep]), sep);
      assert ws[0] + [sep] + Join(ws[1..], [sep]) == ws[0] + ([sep] + Join(ws[1..], [sep]));
      assert ([sep] + Join(ws[1..], [sep]))[1..] == Join(ws[1..], [sep]);
      assert ws == [ws[0]] + ws[1..];
    }
  }

  lemma {:induction false} SplitNoSep(w: string, sep: char)
    requires sep !in w
    ensures Split(w, sep) == [w]
  {
    if w != [] {
      SplitNoSep(w[1..], sep);
      assert w == [w[0]] + w[1..];
    }
  }

  /** A separator-free block in front extends the first piece. */
  lemma {:induction false} SplitPrefix(w: string, rest: string, sep: char)
    requires sep !in w && rest != [] && rest[0] == sep
    ensures Split(w + rest, sep) == [w] + Split(rest[1..], sep)
  {
    if w == [] {
      assert w + rest == rest;
    } else {
      assert (w + rest)[1..] == w[1..] + rest;
      SplitPrefix(w[1..], rest, sep);
      assert w == [w[0]] + w[1..];
    }
  }

  /** Lower-casing leaves a string without upper-case letters unchanged. */
  lemma LowerNoUpper(s: string)
    requires All(s, NotUpper)
    ensures Lower(s) == s
  {
  }

  /** Capitalising and then lowering the first letter restores a word without upper case. */
  lemma LowerFirstCapitalize(w: string)
    requires w != [] && All(w, NotUpper)
    ensures LowerFirst(Capitalize(w)) == w
  {
    LowerNoUpper(w[1..]);
    assert LowerChar(UpperChar(w[0])) == w[0];
  }

  /** The pieces of a split keep any property every character of `s` has. */
  lemma {:induction false} AllSplit(s: string, sep: char, p: char -> bool)
    requires All(s, p)
    ensures forall w <- Split(s, sep) :: All(w, p)
  {
    if s != [] {
      AllSplit(s[1..], sep, p);
      var rest := Split(s[1..], sep);
      if s[0] != sep {
        AllAppend([s[0]], rest[0], p);
        assert Split(s, sep) == [[s[0]] + rest[0]] + rest[1..];
      }
    }
  }

  lemma AllAppend(a: string, b: string, p: char -> bool)
    requires All(a, p) && All(b, p)
    ensures All(a + b, p)
  {
    forall i | 0 <= i < |a + b| ensures p((a + b)[i]) {
      if i >= |a| {
        assert (a + b)[i] == b[i - |a|];
      }
    }
  }

  lemma {:induction false} AllJoin(ws: seq<string>, sep: string, p: char -> bool)
    requires All(sep, p) && forall w <- ws :: All(w, p)
    ensures All(Join(ws, sep), p)
  {
    if |ws| > 1 {
      AllJoin(ws[1..], sep, p);
      AllAppend(ws[0], sep, p);
      AllAppend(ws[0] + sep, Join(ws[1..], sep), p);
    }
  }

  lemma {:induction false} AllConcat(ws: seq<string>, p: char -> bool)
    requires forall w <- ws :: All(w, p)
    ensures All(Concat(ws), p)
  {
    if ws != [] {
      AllConcat(ws[1..], p);
      AllAppend(ws[0], Concat(ws[1..]), p);
    }
  }

  lemma {:induction false} ConcatLength(ws: seq<string>)
    ensures |Concat(CapitalizeAll(ws))| == |Concat(ws)|
  {
    if ws != [] {
      ConcatLength(ws[1..]);
      assert CapitalizeAll(ws)[1..] == CapitalizeAll(ws[1..]);
    }
  }
}
