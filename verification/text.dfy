/** The string operations the service relies on: .NET's `String.Trim`,
    `String.Split` on one separator (with and without removing empty
    entries), `String.IsNullOrEmpty` and substring containment. */
module Text {
  import opened Nullable

  /** The full-width comma that separates participant names. */
  const IdeographicComma: char := '、'

  /** `char.IsWhiteSpace` of .NET: the Unicode space, line and paragraph
      separators plus the control characters TAB..CR and NEL. */
  predicate IsWhiteSpace(c: char) {
    || ('\t' <= c <= '\r')
    || c == ' '
    || c == '\U{85}'
    || c == '\U{A0}'
    || c == '\U{1680}'
    || ('\U{2000}' <= c <= '\U{200A}')
    || c == '\U{2028}'
    || c == '\U{2029}'
    || c == '\U{202F}'
    || c == '\U{205F}'
    || c == '\U{3000}'
  }

  predicate AllWhiteSpace(s: string) {
    forall k :: 0 <= k < |s| ==> IsWhiteSpace(s[k])
  }

  /** `String.IsNullOrEmpty`. */
  predicate IsNullOrEmpty(s: Option<string>) {
    s.None? || s.value == ""
  }

  /** A nullable string as C# string concatenation reads it: `null` is "". */
  function OrEmpty(s: Option<string>): string {
    if s.Some? then s.value else ""
  }

  /** `needle` occurs in `hay` as a contiguous substring. */
  predicate Contains(hay: string, needle: string) {
    exists i, j :: 0 <= i <= j <= |hay| && hay[i..j] == needle
  }

  // ---------------------------------------------------------------------
  // Trim
  // ---------------------------------------------------------------------

  /** How many white-space characters `s` starts with. */
  function LeadingWhiteSpace(s: string): (n: nat)
    ensures n <= |s|
    ensures forall k :: 0 <= k < n ==> IsWhiteSpace(s[k])
    ensures n == |s| || !IsWhiteSpace(s[n])
    decreases |s|
  {
    if |s| > 0 && IsWhiteSpace(s[0]) then 1 + LeadingWhiteSpace(s[1..]) else 0
  }

  /** Where the white space at the end of `s` begins. */
  function TrailingWhiteSpace(s: string): (n: nat)
    ensures n <= |s|
    ensures forall k :: n <= k < |s| ==> IsWhiteSpace(s[k])
    ensures n == 0 || !IsWhiteSpace(s[n - 1])
    decreases |s|
  {
    if |s| > 0 && IsWhiteSpace(s[|s| - 1]) then TrailingWhiteSpace(s[..|s| - 1]) else |s|
  }

  /** `String.Trim()`: `s` without white space at either end. */
  function Trim(s: string): (r: string)
    ensures |r| <= |s|
    ensures r == [] || (!IsWhiteSpace(r[0]) && !IsWhiteSpace(r[|r| - 1]))
  {
    var a := s[LeadingWhiteSpace(s)..];
    a[..TrailingWhiteSpace(a)]
  }

  /** Trim keeps a slice `s[i..i + |r|]` and removes only white space
      around it; with the ensures of `Trim` this determines the result. */
  lemma TrimKeepsMiddle(s: string)
    ensures var r := Trim(s);
            exists i :: 0 <= i <= |s| - |r| && r == s[i..i + |r|]
                        && AllWhiteSpace(s[..i]) && AllWhiteSpace(s[i + |r|..])
  {
    var i := LeadingWhiteSpace(s);
    var a := s[i..];
    var j := TrailingWhiteSpace(a);
    var r := Trim(s);
    assert r == s[i..i + j];
    assert AllWhiteSpace(s[..i]);
    forall k | i + j <= k < |s| ensures IsWhiteSpace(s[k]) {
      assert s[k] == a[k - i];
    }
    assert AllWhiteSpace(s[i + j..]);
  }

  /** A string is trimmed to nothing exactly when it is all white space. */
  lemma TrimEmptyIffWhiteSpace(s: string)
    ensures Trim(s) == "" <==> AllWhiteSpace(s)
  {
    var n := LeadingWhiteSpace(s);
    if n < |s| {
      var a := s[n..];
      assert a[0] == s[n];
      assert TrailingWhiteSpace(a) > 0;
    }
  }

  /** A string that neither starts nor ends with white space is its own trim. */
  lemma TrimFixed(s: string)
    requires s == [] || (!IsWhiteSpace(s[0]) && !IsWhiteSpace(s[|s| - 1]))
    ensures Trim(s) == s
  {
    assert s[LeadingWhiteSpace(s)..] == s;
  }

  /** Trimming twice is trimming once. */
  lemma TrimIdempotent(s: string)
    ensures Trim(Trim(s)) == Trim(s)
  {
    TrimFixed(Trim(s));
  }

  // ---------------------------------------------------------------------
  // Split
  // ---------------------------------------------------------------------

  /** The pieces joined back together, `sep` between each neighbouring pair
      (`String.Join`). */
  function Join(pieces: seq<string>, sep: char): string
  {
    if |pieces| == 0 then ""
    else if |pieces| == 1 then pieces[0]
    else pieces[0] + [sep] + Join(pieces[1..], sep)
  }

  /** Extending the first piece at its front extends the joined string. */
  lemma JoinExtendFirst(c: char, pieces: seq<string>, sep: char)
    requires |pieces| > 0
    ensures Join([[c] + pieces[0]] + pieces[1..], sep) == [c] + Join(pieces, sep)
  {
    var ps := [[c] + pieces[0]] + pieces[1..];
    assert ps[1..] == pieces[1..];
  }

  /** `s.Split(sep)`: the maximal stretches of `s` between occurrences of
      `sep`, empty ones included. Joining them back gives `s`. */
  function SplitAll(s: string, sep: char): (pieces: seq<string>)
    ensures |pieces| > 0
    ensures forall k :: 0 <= k < |pieces| ==> sep !in pieces[k]
    ensures Join(pieces, sep) == s
    decreases |s|
  {
    if |s| == 0 then [""]
    else
      var rest := SplitAll(s[1..], sep);
      if s[0] == sep then
        assert [sep] + Join(rest, sep) == s;
        [""] + rest
      else
        JoinExtendFirst(s[0], rest, sep);
        assert [s[0]] + s[1..] == s;
        [[s[0]] + rest[0]] + rest[1..]
  }

  /** The split is the only way to cut `s` into separator-free pieces that
      join back to `s`. */
  lemma {:induction false} SplitAllUnique(s: string, sep: char, pieces: seq<string>)
    requires |pieces| > 0
    requires forall k :: 0 <= k < |pieces| ==> sep !in pieces[k]
    requires Join(pieces, sep) == s
    ensures pieces == SplitAll(s, sep)
    decreases |s|
  {
    if |pieces[0]| > 0 {
      var c := pieces[0][0];
      var tail := [pieces[0][1..]] + pieces[1..];
      assert pieces[0] == [c] + pieces[0][1..];
      assert tail[1..] == pieces[1..];
      assert pieces == [[c] + tail[0]] + tail[1..];
      JoinExtendFirst(c, tail, sep);
      assert s == [c] + Join(tail, sep);
      assert s[1..] == Join(tail, sep);
      assert c != sep by { assert c in pieces[0]; }
      forall k | 0 <= k < |tail| ensures sep !in tail[k] {
        if k > 0 { assert tail[k] == pieces[k]; }
      }
      SplitAllUnique(s[1..], sep, tail);
    } else if |pieces| == 1 {
      assert s == "";
    } else {
      assert s == [sep] + Join(pieces[1..], sep);
      assert s[1..] == Join(pieces[1..], sep);
      forall k | 0 <= k < |pieces| - 1 ensures sep !in pieces[1..][k] {
        assert pieces[1..][k] == pieces[k + 1];
      }
      SplitAllUnique(s[1..], sep, pieces[1..]);
      assert pieces == [""] + pieces[1..];
    }
  }

  /** The non-empty strings of `pieces`, in their original order. */
  function RemoveEmpty(pieces: seq<string>): (r: seq<string>)
    ensures |r| <= |pieces|
    ensures forall k :: 0 <= k < |r| ==> r[k] != "" && r[k] in pieces
    ensures forall p :: p in pieces && p != "" ==> p in r
    // every non-empty piece is kept as many times as it occurs
    ensures forall p :: p != "" ==> multiset(r)[p] == multiset(pieces)[p]
  {
    if |pieces| == 0 then []
    else
      assert pieces == [pieces[0]] + pieces[1..];
      if pieces[0] == "" then RemoveEmpty(pieces[1..])
      else [pieces[0]] + RemoveEmpty(pieces[1..])
  }

  /** Removing empty pieces keeps the order: it works piece by piece. */
  lemma {:induction false} RemoveEmptyAppend(a: seq<string>, b: seq<string>)
    ensures RemoveEmpty(a + b) == RemoveEmpty(a) + RemoveEmpty(b)
  {
    if |a| > 0 {
      assert (a + b)[0] == a[0];
      assert (a + b)[1..] == a[1..] + b;
      RemoveEmptyAppend(a[1..], b);
    } else {
      assert a + b == b;
    }
  }

  /** Joining two non-empty lists of pieces puts one separator between them. */
  lemma {:induction false} JoinAppend(x: seq<string>, y: seq<string>, sep: char)
    requires |x| > 0 && |y| > 0
    ensures Join(x + y, sep) == Join(x, sep) + [sep] + Join(y, sep)
  {
    if |x| == 1 {
      assert (x + y)[1..] == y;
    } else {
      assert (x + y)[1..] == x[1..] + y;
      JoinAppend(x[1..], y, sep);
    }
  }

  /** Pieces free of the separator stay free of it when concatenated. */
  lemma NoSeparatorAppend(x: seq<string>, y: seq<string>, sep: char)
    requires forall k :: 0 <= k < |x| ==> sep !in x[k]
    requires forall k :: 0 <= k < |y| ==> sep !in y[k]
    ensures forall k :: 0 <= k < |x + y| ==> sep !in (x + y)[k]
  {
    forall k | 0 <= k < |x + y| ensures sep !in (x + y)[k] {
      if k < |x| { assert (x + y)[k] == x[k]; }
      else { assert (x + y)[k] == y[k - |x|]; }
    }
  }

  /** Splitting at one separator splits the two sides independently. */
  lemma SplitAllAppend(a: string, b: string, sep: char)
    ensures SplitAll(a + [sep] + b, sep) == SplitAll(a, sep) + SplitAll(b, sep)
  {
    var s := a + [sep] + b;
    var x := SplitAll(a, sep);
    var y := SplitAll(b, sep);
    assert Join(x + y, sep) == s by {
      JoinAppend(x, y, sep);
    }
    NoSeparatorAppend(x, y, sep);
    SplitAllUnique(s, sep, x + y);
  }

  /** A string without a separator is one piece. */
  lemma SplitAllNoSeparator(s: string, sep: char)
    requires sep !in s
    ensures SplitAll(s, sep) == [s]
  {
    SplitAllUnique(s, sep, [s]);
  }

  /** `s.Split(new[] { sep }, StringSplitOptions.RemoveEmptyEntries)`: the
      non-empty maximal separator-free stretches of `s`, in input order.
      No white space is removed here. */
  function SplitNonEmpty(s: string, sep: char): (pieces: seq<string>)
    ensures forall k :: 0 <= k < |pieces| ==> pieces[k] != "" && sep !in pieces[k]
    ensures forall p :: p != "" ==> multiset(pieces)[p] == multiset(SplitAll(s, sep))[p]
  {
    RemoveEmpty(SplitAll(s, sep))
  }

  /** The split with empty entries removed, characterised without
      `SplitAll`: a separator divides the string into two independent
      halves, and a separator-free string is one piece unless it is empty.
      Together these fix the pieces and their order. */
  lemma SplitNonEmptyAppend(a: string, b: string, sep: char)
    ensures SplitNonEmpty(a + [sep] + b, sep) == SplitNonEmpty(a, sep) + SplitNonEmpty(b, sep)
  {
    SplitAllAppend(a, b, sep);
    RemoveEmptyAppend(SplitAll(a, sep), SplitAll(b, sep));
  }

  lemma SplitNonEmptyNoSeparator(s: string, sep: char)
    requires sep !in s
    ensures SplitNonEmpty(s, sep) == if s == "" then [] else [s]
  {
    SplitAllNoSeparator(s, sep);
    assert [s][1..] == [];
  }

  /** All characters of `s` that are not `sep`, in order. */
  function Without(s: string, sep: char): string
  {
    if |s| == 0 then ""
    else if s[0] == sep then Without(s[1..], sep)
    else [s[0]] + Without(s[1..], sep)
  }

  /** Concatenation of a sequence of strings. */
  function Concat(pieces: seq<string>): string
  {
    if |pieces| == 0 then "" else pieces[0] + Concat(pieces[1..])
  }

  lemma {:induction false} ConcatRemoveEmpty(pieces: seq<string>)
    ensures Concat(RemoveEmpty(pieces)) == Concat(pieces)
  {
    if |pieces| > 0 {
      ConcatRemoveEmpty(pieces[1..]);
      if pieces[0] != "" {
        assert ([pieces[0]] + RemoveEmpty(pieces[1..]))[1..] == RemoveEmpty(pieces[1..]);
      }
    }
  }

  lemma {:induction false} ConcatSplitAll(s: string, sep: char)
    ensures Concat(SplitAll(s, sep)) == Without(s, sep)
    decreases |s|
  {
    if |s| > 0 {
      ConcatSplitAll(s[1..], sep);
      var rest := SplitAll(s[1..], sep);
      if s[0] == sep {
        assert ([""] + rest)[1..] == rest;
      } else {
        var ps := [[s[0]] + rest[0]] + rest[1..];
        assert ps[1..] == rest[1..];
        assert Concat(rest) == rest[0] + Concat(rest[1..]);
      }
    }
  }

  /** Removing empty pieces loses no characters: the pieces of the split,
      glued together, are exactly the characters of `s` other than `sep`. */
  lemma SplitNonEmptyKeepsCharacters(s: string, sep: char)
    ensures Concat(SplitNonEmpty(s, sep)) == Without(s, sep)
  {
    ConcatRemoveEmpty(SplitAll(s, sep));
    ConcatSplitAll(s, sep);
  }

  lemma {:induction false} ConcatEmptyIff(pieces: seq<string>)
    requires forall k :: 0 <= k < |pieces| ==> pieces[k] != ""
    ensures Concat(pieces) == "" <==> |pieces| == 0
  {
    if |pieces| > 0 {
      assert |Concat(pieces)| >= |pieces[0]| > 0;
    }
  }

  lemma {:induction false} WithoutEmptyIff(s: string, sep: char)
    ensures Without(s, sep) == "" <==> forall k :: 0 <= k < |s| ==> s[k] == sep
    decreases |s|
  {
    if |s| > 0 {
      WithoutEmptyIff(s[1..], sep);
      if s[0] == sep {
        if forall k :: 0 <= k < |s| - 1 ==> s[1..][k] == sep {
          forall k | 0 <= k < |s| ensures s[k] == sep {
            if k > 0 { assert s[1..][k - 1] == s[k]; }
          }
        }
        if forall k :: 0 <= k < |s| ==> s[k] == sep {
          forall k | 0 <= k < |s| - 1 ensures s[1..][k] == sep {
            assert s[1..][k] == s[k + 1];
          }
        }
      }
    }
  }

  /** The split yields no pieces exactly when `s` consists of separators
      only (the empty string included). */
  lemma NoPiecesIffOnlySeparators(s: string, sep: char)
    ensures |SplitNonEmpty(s, sep)| == 0 <==> forall k :: 0 <= k < |s| ==> s[k] == sep
  {
    SplitNonEmptyKeepsCharacters(s, sep);
    ConcatEmptyIff(SplitNonEmpty(s, sep));
    WithoutEmptyIff(s, sep);
  }
}
