/** `GlobFilter.globToRegex`: the regular expression a file-name glob
    stands for.  `*` matches any run of characters, `?` any one character,
    `.` only itself, and `,` separates alternative globs; everything else is
    passed to the regular expression as it is.  The result is the pattern
    text; compiling and matching it is outside the model. */
module Globs {

  /** The regular-expression text of one glob character. */
  function CharRegex(c: char): (r: string)
    ensures c == '*' ==> r == ".*"
    ensures c == '.' ==> r == "\\."
    ensures c == '?' ==> r == "."
    ensures c == ',' ==> r == "$|^"
    ensures c !in "*.?," ==> r == [c]
  {
    match c
    case '*' => ".*"
    case '.' => "\\."
    case '?' => "."
    case ',' => "$|^"
    case _ => [c]
  }

  /** The text between the outer anchors: the translations of the glob's
      characters, in order. */
  function Body(glob: string): string
  {
    if glob == [] then [] else Body(glob[..|glob| - 1]) + CharRegex(glob[|glob| - 1])
  }

  /** The translation of a concatenation is the concatenation of the
      translations. */
  lemma {:induction false} BodyAppend(a: string, b: string)
    ensures Body(a + b) == Body(a) + Body(b)
    decreases |b|
  {
    if b == [] {
      assert a + b == a;
    } else {
      var b', c := b[..|b| - 1], b[|b| - 1];
      assert (a + b)[..|a + b| - 1] == a + b';
      assert (a + b)[|a + b| - 1] == c;
      assert Body(a + b) == Body(a + b') + CharRegex(c);
      BodyAppend(a, b');
      assert Body(b) == Body(b') + CharRegex(c);
    }
  }

  /** A glob without special characters is its own body. */
  lemma {:induction false} PlainBody(glob: string)
    requires forall i :: 0 <= i < |glob| ==> glob[i] !in "*.?,"
    ensures Body(glob) == glob
  {
    if glob != [] {
      var g, c := glob[..|glob| - 1], glob[|glob| - 1];
      assert glob == g + [c];
      PlainBody(g);
      assert CharRegex(c) == [c];
    }
  }

  /** The text `globToRegex` compiles: the body between `^` and `$`. */
  function Regex(glob: string): (r: string)
    ensures |r| >= 2 && r[0] == '^' && r[|r| - 1] == '$'
  {
    "^" + Body(glob) + "$"
  }

  /** `globToRegex`, up to the compilation of the pattern: appends the
      translation of each character to the builder, between the anchors. */
  method GlobToRegex(glob: string) returns (out: string)
    ensures out == Regex(glob)
  {
    out := "^";
    var i := 0;
    while i < |glob|
      invariant 0 <= i <= |glob|
      invariant out == "^" + Body(glob[..i])
    {
      var c := glob[i];
      var piece: string;
      if c == '*' {
        piece := ".*";
      } else if c == '.' {
        piece := "\\.";
      } else if c == '?' {
        piece := ".";
      } else if c == ',' {
        piece := "$|^";
      } else {
        piece := [c];
      }
      assert glob[..i + 1][..i] == glob[..i];
      assert piece == CharRegex(c);
      assert Body(glob[..i + 1]) == Body(glob[..i]) + piece;
      out := out + piece;
      i := i + 1;
    }
    assert glob[..i] == glob;
    out := out + "$";
  }

  /** A comma joins two globs as alternatives, each anchored at both ends. */
  lemma Alternatives(a: string, b: string)
    ensures Regex(a + [','] + b) == Regex(a) + "|" + Regex(b)
  {
    var x, y := Body(a), Body(b);
    assert Body([',']) == "$|^" by {
      assert [','][..0] == [];
    }
    assert Body(a + [','] + b) == x + "$|^" + y by {
      BodyAppend(a + [','], b);
      BodyAppend(a, [',']);
    }
    assert "$|^" == "$" + "|" + "^";
    Regroup("^", x, "$", "|", y);
  }

  lemma Regroup(h: string, x: string, d: string, bar: string, y: string)
    ensures h + (x + (d + bar + h) + y) + d == (h + x + d) + bar + (h + y + d)
  {
  }
}
