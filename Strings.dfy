/** The .NET string operations the core relies on, written out over `seq<char>`:
    `String.Split`, `String.Trim`, `String.Replace(pattern, "")`, an ordinal `String.StartsWith`
    and splitting with `StringSplitOptions.RemoveEmptyEntries`. */
module Strings {
  import opened Sequences

  /** The characters `Char.IsWhiteSpace` accepts among ASCII and Latin-1. */
  predicate IsWhiteSpace(c: char) {
    c == ' ' || c == '\t' || c == '\n' || c == '\r' || c == '\U{000B}' || c == '\U{000C}'
    || c == '\U{0085}' || c == '\U{00A0}'
  }

  /** `string.IsNullOrWhiteSpace` on a non-null string. */
  predicate IsBlank(s: string) {
    forall i :: 0 <= i < |s| ==> IsWhiteSpace(s[i])
  }

  predicate StartsWith(s: string, prefix: string) {
    |prefix| <= |s| && s[..|prefix|] == prefix
  }

  // ----- Split and Join -----

  /** `s.Split(sep)`: the pieces between occurrences of `sep`, empty pieces included. */
  function Split(s: string, sep: char): (parts: seq<string>)
    ensures |parts| >= 1
    ensures forall i :: 0 <= i < |parts| ==> sep !in parts[i]
    decreases |s|
  {
    if |s| == 0 then [""]
    else
      var rest := Split(s[1..], sep);
      if s[0] == sep then [""] + rest else [[s[0]] + rest[0]] + rest[1..]
  }

  /** `string.Join(sep, parts)`. */
  function Join(parts: seq<string>, sep: char): (s: string)
    decreases |parts|
  {
    if |parts| == 0 then "" else if |parts| == 1 then parts[0]
    else parts[0] + [sep] + Join(parts[1..], sep)
  }

  /** Joining the pieces of a split gives back the original string. */
  lemma {:induction false} JoinSplit(s: string, sep: char)
    ensures Join(Split(s, sep), sep) == s
    decreases |s|
  {
    if |s| > 0 {
      var rest := Split(s[1..], sep);
      JoinSplit(s[1..], sep);
      if s[0] == sep {
        assert Split(s, sep) == [""] + rest;
        assert ([""] + rest)[1..] == rest;
      } else {
        var parts := Split(s, sep);
        assert parts == [[s[0]] + rest[0]] + rest[1..];
        if |rest| == 1 {
          assert parts == [[s[0]] + rest[0]];
        } else {
          assert parts[1..] == rest[1..];
          assert Join(rest, sep) == rest[0] + [sep] + Join(rest[1..], sep);
        }
      }
    }
  }

  /** Splitting a join of separator-free pieces gives back the pieces. */
  lemma {:induction false} SplitJoin(parts: seq<string>, sep: char)
    requires |parts| >= 1
    requires forall i :: 0 <= i < |parts| ==> sep !in parts[i]
    ensures Split(Join(parts, sep), sep) == parts
    decreases |parts|, |parts[0]|
  {
    if |parts| == 1 {
      SplitFree(parts[0], sep);
    } else if |parts[0]| == 0 {
      var s := Join(parts, sep);
      assert s == [sep] + Join(parts[1..], sep);
      assert s[1..] == Join(parts[1..], sep);
      SplitJoin(parts[1..], sep);
      assert Split(s, sep) == [""] + parts[1..];
    } else {
      var s := Join(parts, sep);
      var shorter := [parts[0][1..]] + parts[1..];
      assert shorter[1..] == parts[1..];
      assert Join(shorter, sep) == parts[0][1..] + [sep] + Join(parts[1..], sep);
      assert s == [parts[0][0]] + Join(shorter, sep);
      assert s[1..] == Join(shorter, sep);
      assert parts[0][0] != sep by { assert parts[0][0] in parts[0]; }
      SplitJoin(shorter, sep);
      assert [parts[0][0]] + parts[0][1..] == parts[0];
    }
  }

  /** A string with exactly one separator splits into the text before and after it. */
  lemma SplitPair(a: string, b: string, sep: char)
    requires sep !in a && sep !in b
    ensures Split(a + [sep] + b, sep) == [a, b]
  {
    var parts := [a, b];
    assert parts[1..] == [b];
    assert Join(parts, sep) == a + [sep] + b;
    SplitJoin(parts, sep);
  }

  /** A string without the separator splits into itself alone. */
  lemma {:induction false} SplitFree(s: string, sep: char)
    requires sep !in s
    ensures Split(s, sep) == [s]
    decreases |s|
  {
    if |s| > 0 {
      assert s[0] in s;
      assert forall c :: c in s[1..] ==> c in s;
      SplitFree(s[1..], sep);
      assert [s[0]] + s[1..] == s;
    }
  }

  /** A split yields one more piece than there are separators. */
  lemma {:induction false} SplitCount(s: string, sep: char)
    ensures |Split(s, sep)| == multiset(s)[sep] + 1
    decreases |s|
  {
    if |s| > 0 {
      SplitCount(s[1..], sep);
      assert s == [s[0]] + s[1..];
    }
  }

  // ----- Splitting on spaces with empty entries removed -----

  predicate NonEmpty(s: string) { |s| > 0 }

  /** `s.Split(new[] { ' ' }, StringSplitOptions.RemoveEmptyEntries)`. */
  function Tokens(s: string): (tokens: seq<string>)
  {
    Filter(Split(s, ' '), NonEmpty)
  }

  /** Every token is a non-empty run of non-space characters. */
  lemma TokensShape(s: string)
    ensures forall i :: 0 <= i < |Tokens(s)| ==> |Tokens(s)[i]| > 0 && ' ' !in Tokens(s)[i]
  {
    var parts := Split(s, ' ');
    forall i | 0 <= i < |Tokens(s)|
      ensures ' ' !in Tokens(s)[i]
    {
      FilterMembership(parts, NonEmpty, Tokens(s)[i]);
    }
  }

  /** Joining non-empty space-free words with single spaces and tokenising gives back
      the words. */
  lemma TokensJoin(words: seq<string>)
    requires forall i :: 0 <= i < |words| ==> |words[i]| > 0 && ' ' !in words[i]
    ensures Tokens(Join(words, ' ')) == words
  {
    if |words| == 0 {
      assert Split("", ' ') == [""];
    } else {
      SplitJoin(words, ' ');
      FilterAll(words, NonEmpty);
    }
  }

  // ----- Trim -----

  function TrimStart(s: string): (r: string)
    ensures |r| <= |s| && r == s[|s| - |r|..]
    ensures forall i :: 0 <= i < |s| - |r| ==> IsWhiteSpace(s[i])
    ensures |r| > 0 ==> !IsWhiteSpace(r[0])
  {
    if |s| > 0 && IsWhiteSpace(s[0]) then TrimStart(s[1..]) else s
  }

  function TrimEnd(s: string): (r: string)
    ensures |r| <= |s| && r == s[..|r|]
    ensures forall i :: |r| <= i < |s| ==> IsWhiteSpace(s[i])
    ensures |r| > 0 ==> !IsWhiteSpace(r[|r| - 1])
  {
    if |s| > 0 && IsWhiteSpace(s[|s| - 1]) then TrimEnd(s[..|s| - 1]) else s
  }

  /** `s.Trim()`: the infix of `s` left after dropping leading and trailing white space. */
  function Trim(s: string): (r: string)
    ensures |r| <= |s|
    ensures exists a :: 0 <= a && a + |r| <= |s| && r == s[a..a + |r|] && IsBlank(s[..a]) && IsBlank(s[a + |r|..])
    ensures |r| > 0 ==> !IsWhiteSpace(r[0]) && !IsWhiteSpace(r[|r| - 1])
  {
    var t := TrimStart(s);
    var a := |s| - |t|;
    var r := TrimEnd(t);
    assert IsBlank(s[..a]) by {
      forall i | 0 <= i < a ensures IsWhiteSpace(s[..a][i]) {
        assert s[..a][i] == s[i];
      }
    }
    var rest := s[a + |r|..];
    assert IsBlank(rest) by {
      forall i | 0 <= i < |rest| ensures IsWhiteSpace(rest[i]) {
        assert rest[i] == t[|r| + i];
      }
    }
    assert r == s[a..a + |r|];
    r
  }

  /** The trim is empty exactly when the string is blank. */
  lemma TrimEmpty(s: string)
    ensures Trim(s) == "" <==> IsBlank(s)
  {
    var r := Trim(s);
    var a :| 0 <= a && a + |r| <= |s| && r == s[a..a + |r|] && IsBlank(s[..a]) && IsBlank(s[a + |r|..]);
    if r == "" {
      forall i | 0 <= i < |s| ensures IsWhiteSpace(s[i]) {
        if i < a {
          assert s[..a][i] == s[i];
        } else {
          assert s[a..][i - a] == s[i];
        }
      }
    }
  }

  /** Trimming a string that neither starts nor ends with white space changes nothing. */
  lemma TrimUntouched(s: string)
    requires |s| > 0 ==> !IsWhiteSpace(s[0]) && !IsWhiteSpace(s[|s| - 1])
    ensures Trim(s) == s
  {
  }

  /** Trimming drops leading white space. */
  lemma TrimLeading(w: string, s: string)
    requires IsBlank(w)
    ensures Trim(w + s) == Trim(s)
  {
    TrimStartLeading(w, s);
  }

  lemma {:induction false} TrimStartLeading(w: string, s: string)
    requires IsBlank(w)
    ensures TrimStart(w + s) == TrimStart(s)
    decreases |w|
  {
    if |w| > 0 {
      assert (w + s)[0] == w[0];
      assert (w + s)[1..] == w[1..] + s;
      TrimStartLeading(w[1..], s);
    } else {
      assert w + s == s;
    }
  }

  // ----- Replace (pattern, "") -----

  /** `s.Replace(pat, "")`: scan left to right and drop every non-overlapping occurrence
      of `pat`; the text a removal brings together is not scanned again. */
  function RemoveAll(s: string, pat: string): (r: string)
    requires |pat| > 0
    ensures |r| <= |s|
    decreases |s|
  {
    if |s| < |pat| then s
    else if s[..|pat|] == pat then RemoveAll(s[|pat|..], pat)
    else [s[0]] + RemoveAll(s[1..], pat)
  }

  /** Removing a pattern whose first character does not occur changes nothing. */
  lemma {:induction false} RemoveAllAbsent(s: string, pat: string)
    requires |pat| > 0 && pat[0] !in s
    ensures RemoveAll(s, pat) == s
    decreases |s|
  {
    if |s| >= |pat| {
      assert s[0] in s;
      assert s[..|pat|][0] == s[0];
      assert forall c :: c in s[1..] ==> c in s;
      RemoveAllAbsent(s[1..], pat);
      assert [s[0]] + s[1..] == s;
    }
  }

  /** A single trailing occurrence that cannot overlap the rest is removed. */
  lemma {:induction false} RemoveAllTrailing(s: string, pat: string)
    requires |pat| > 0 && pat[0] !in s
    ensures RemoveAll(s + pat, pat) == s
    decreases |s|
  {
    var t := s + pat;
    if |s| == 0 {
      assert t == pat;
      assert t[|pat|..] == "";
    } else {
      assert t[0] == s[0] && s[0] in s;
      assert t[..|pat|][0] != pat[0];
      assert t[1..] == s[1..] + pat;
      assert forall c :: c in s[1..] ==> c in s;
      RemoveAllTrailing(s[1..], pat);
      assert [s[0]] + s[1..] == s;
    }
  }

  /** `s` with every occurrence of `c` dropped. */
  function DropChar(s: string, c: char): (r: string)
    ensures c !in r
  {
    if s == [] then [] else
      assert s == [s[0]] + s[1..];
      (if s[0] == c then [] else [s[0]]) + DropChar(s[1..], c)
  }

  /** Replacing a one-character pattern by "" drops every occurrence of that character. */
  lemma {:induction false} RemoveAllChar(s: string, c: char)
    ensures RemoveAll(s, [c]) == DropChar(s, c)
    decreases |s|
  {
    if |s| > 0 {
      assert s[..1] == [s[0]];
      RemoveAllChar(s[1..], c);
    }
  }

  /** Every other character is kept, as often as it occurs. */
  lemma {:induction false} DropCharKeeps(s: string, c: char, x: char)
    requires x != c
    ensures multiset(DropChar(s, c))[x] == multiset(s)[x]
  {
    if s != [] {
      assert s == [s[0]] + s[1..];
      DropCharKeeps(s[1..], c, x);
    }
  }

  /** Dropping `c` from a one-character string. */
  lemma DropCharSingle(x: char, c: char)
    ensures DropChar([x], c) == if x == c then [] else [x]
  {
    assert [x][1..] == [];
  }

  lemma {:induction false} DropCharAppend(a: string, b: string, c: char)
    ensures DropChar(a + b, c) == DropChar(a, c) + DropChar(b, c)
  {
    if a != [] {
      assert (a + b)[1..] == a[1..] + b;
      DropCharAppend(a[1..], b, c);
    } else {
      assert a + b == b;
    }
  }

  /** A character that does not occur is not dropped. */
  lemma {:induction false} DropCharAbsent(s: string, c: char)
    requires c !in s
    ensures DropChar(s, c) == s
  {
    if s != [] {
      assert s[0] in s;
      assert forall x :: x in s[1..] ==> x in s;
      DropCharAbsent(s[1..], c);
    }
  }
}
