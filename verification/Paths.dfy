/** Path normalisation and segment splitting: crates/gateway-router/src/router.rs and trie.rs. */
module Paths {

  function ToLower(c: char): char
  {
    if 'A' <= c <= 'Z' then (c as int - 'A' as int + 'a' as int) as char else c
  }

  /** `trim_start_matches('/')`. */
  function TrimStart(p: string): string
  {
    if p != "" && p[0] == '/' then TrimStart(p[1..]) else p
  }

  /** Where the first slash is, or the length if there is none. */
  function FirstSlash(p: string): (i: nat)
    ensures i <= |p|
    ensures '/' !in p[..i]
    ensures i < |p| ==> p[i] == '/'
  {
    if p == "" || p[0] == '/' then 0 else 1 + FirstSlash(p[1..])
  }

  /** `split_first_segment`: leading slashes are consumed, and one slash after the head. */
  function SplitFirst(p: string): (parts: (string, string))
    ensures p != "" ==> |parts.1| < |p|
  {
    var q := TrimStart(p);
    TrimStartShrinks(p);
    var i := FirstSlash(q);
    if i < |q| then (q[..i], q[i + 1..]) else (q, "")
  }

  lemma TrimStartShrinks(p: string)
    ensures |TrimStart(p)| <= |p|
    ensures TrimStart(p) == "" || TrimStart(p)[0] != '/'
  {}

  /** The segments the trie walks through for a path. */
  function Segments(p: string): seq<string>
    decreases |p|
  {
    if p == "" then []
    else
      var (head, tail) := SplitFirst(p);
      [head] + Segments(tail)
  }

  /** Lower-cased text in which a slash is dropped when the character before it was one. */
  function Squeeze(p: string, lastWasSlash: bool): string
  {
    if p == "" then ""
    else if p[0] == '/' then (if lastWasSlash then "" else "/") + Squeeze(p[1..], true)
    else [ToLower(p[0])] + Squeeze(p[1..], false)
  }

  function Normalise(p: string): string
  {
    Squeeze(TrimStart(p), false)
  }

  /** What one character adds to the output. */
  lemma SqueezeOne(out: string, p: string, lastWasSlash: bool)
    requires p != ""
    ensures out + Squeeze(p, lastWasSlash)
         == out + (if p[0] != '/' then [ToLower(p[0])] else if lastWasSlash then "" else "/")
            + Squeeze(p[1..], p[0] == '/')
  {
    var head := if p[0] != '/' then [ToLower(p[0])] else if lastWasSlash then "" else "/";
    assert Squeeze(p, lastWasSlash) == head + Squeeze(p[1..], p[0] == '/');
    Regroup(out, head, Squeeze(p[1..], p[0] == '/'));
  }

  lemma Regroup<T>(a: seq<T>, b: seq<T>, c: seq<T>)
    ensures a + b + c == a + (b + c)
  {}

  /** `normalise_path`, with its output buffer and its flag. */
  method NormalisePath(p: string) returns (out: string)
    ensures out == Normalise(p)
    ensures Normal(out) && (Normal(p) ==> out == p)
  {
    NormaliseIsNormal(p);
    NormalIffUnchanged(p);
    var trimmed := TrimStart(p);
    out := "";
    var lastWasSlash := false;
    for i := 0 to |trimmed|
      invariant out + Squeeze(trimmed[i..], lastWasSlash) == Normalise(p)
    {
      var ch := trimmed[i];
      assert trimmed[i..][0] == ch && trimmed[i..][1..] == trimmed[i + 1..];
      SqueezeOne(out, trimmed[i..], lastWasSlash);
      if ch == '/' {
        assert lastWasSlash ==> out + "" == out;
        if !lastWasSlash { out := out + "/"; }
        lastWasSlash := true;
      } else {
        out := out + [ToLower(ch)];
        lastWasSlash := false;
      }
    }
  }

  // ---- What a path means: its lower-cased non-empty pieces ----

  /** The pieces of `p`, where `word` is the piece being read. */
  function PiecesFrom(p: string, word: string): seq<string>
  {
    var done := if word == "" then [] else [word];
    if p == "" then done
    else if p[0] == '/' then done + PiecesFrom(p[1..], "")
    else PiecesFrom(p[1..], word + [ToLower(p[0])])
  }

  function Pieces(p: string): seq<string>
  {
    PiecesFrom(p, "")
  }

  lemma {:induction false} SqueezeTrimmed(p: string)
    ensures Squeeze(TrimStart(p), false) == Squeeze(p, true)
  {
    if p != "" && p[0] == '/' {
      SqueezeTrimmed(p[1..]);
    }
  }

  lemma {:induction false} FirstSlashAfterWord(word: string, rest: string)
    requires '/' !in word
    ensures FirstSlash(word + rest) == |word| + FirstSlash(rest)
  {
    if word == "" {
      assert word + rest == rest;
    } else {
      assert (word + rest)[1..] == word[1..] + rest;
      FirstSlashAfterWord(word[1..], rest);
    }
  }

  lemma SegmentsAfterWord(word: string, rest: string)
    requires word != "" && '/' !in word
    ensures Segments(word) == [word]
    ensures Segments(word + "/" + rest) == [word] + Segments(rest)
  {
    FirstSlashAfterWord(word, "");
    assert word + "" == word;
    FirstSlashAfterWord(word, "/" + rest);
    assert word + "/" + rest == word + ("/" + rest);
    var p := word + "/" + rest;
    assert p[..|word|] == word && p[|word| + 1..] == rest;
  }

  lemma {:induction false} SegmentsOfSqueezed(p: string, word: string)
    requires '/' !in word
    ensures Segments(word + Squeeze(p, word == "")) == PiecesFrom(p, word)
    decreases |p|
  {
    if p == "" {
      assert word + "" == word;
      if word != "" { SegmentsAfterWord(word, ""); }
    } else if p[0] == '/' {
      SegmentsOfSqueezed(p[1..], "");
      assert "" + Squeeze(p[1..], true) == Squeeze(p[1..], true);
      if word != "" {
        SegmentsAfterWord(word, Squeeze(p[1..], true));
        assert word + ("/" + Squeeze(p[1..], true)) == word + "/" + Squeeze(p[1..], true);
      } else {
        assert word + ("" + Squeeze(p[1..], true)) == Squeeze(p[1..], true);
      }
    } else {
      var longer := word + [ToLower(p[0])];
      SegmentsOfSqueezed(p[1..], longer);
      assert word + ([ToLower(p[0])] + Squeeze(p[1..], false)) == longer + Squeeze(p[1..], false);
    }
  }

  /** The trie sees a normalised path as its pieces, nothing more. */
  lemma SegmentsOfNormalised(p: string)
    ensures Segments(Normalise(p)) == Pieces(p)
  {
    SqueezeTrimmed(p);
    SegmentsOfSqueezed(p, "");
    assert "" + Squeeze(p, true) == Squeeze(p, true);
  }

  lemma {:induction false} SqueezeIdempotent(p: string, lastWasSlash: bool)
    ensures Squeeze(Squeeze(p, lastWasSlash), lastWasSlash) == Squeeze(p, lastWasSlash)
    decreases |p|
  {
    if p != "" {
      var rest := Squeeze(p[1..], p[0] == '/');
      SqueezeIdempotent(p[1..], p[0] == '/');
      if p[0] == '/' {
        assert "" + rest == rest;
        assert ("/" + rest)[1..] == rest;
      } else {
        assert ([ToLower(p[0])] + rest)[1..] == rest;
      }
    }
  }

  lemma NormaliseIdempotent(p: string)
    ensures Normalise(Normalise(p)) == Normalise(p)
  {
    SqueezeTrimmed(p);
    SqueezeTrimmed(Normalise(p));
    SqueezeIdempotent(p, true);
  }

  // ---- What normal forms look like ----

  /** No upper-case ASCII letter, no slash in front, and no two slashes in a row. */
  ghost predicate Normal(p: string)
  {
    && (forall i | 0 <= i < |p| :: !('A' <= p[i] <= 'Z'))
    && (p != "" ==> p[0] != '/')
    && (forall i | 0 < i < |p| :: p[i] == '/' ==> p[i - 1] != '/')
  }

  /** What squeezing leaves has that shape, but for one slash in front. */
  lemma {:induction false} SqueezedShape(p: string, lastWasSlash: bool)
    ensures var q := Squeeze(p, lastWasSlash);
            && (forall i | 0 <= i < |q| :: !('A' <= q[i] <= 'Z'))
            && (forall i | 0 < i < |q| :: q[i] == '/' ==> q[i - 1] != '/')
            && (lastWasSlash && q != "" ==> q[0] != '/')
            && (p != "" && p[0] != '/' ==> q != "" && q[0] != '/')
  {
    if p != "" { SqueezedShape(p[1..], p[0] == '/'); }
  }

  /** What has that shape is left as it is, character by character. */
  lemma {:induction false} SqueezeKeeps(p: string, lastWasSlash: bool)
    requires forall i | 0 <= i < |p| :: !('A' <= p[i] <= 'Z')
    requires forall i | 0 < i < |p| :: p[i] == '/' ==> p[i - 1] != '/'
    requires lastWasSlash && p != "" ==> p[0] != '/'
    ensures Squeeze(p, lastWasSlash) == p
  {
    if p != "" {
      assert p[0] == '/' && p[1..] != "" ==> p[1] != '/';
      SqueezeKeeps(p[1..], p[0] == '/');
      assert p == [p[0]] + p[1..];
    }
  }

  lemma NormaliseIsNormal(p: string)
    ensures Normal(Normalise(p))
  {
    TrimStartShrinks(p);
    SqueezedShape(TrimStart(p), false);
  }

  /** Normalisation changes exactly the paths that are not normal: case and surplus slashes, and nothing else. */
  lemma NormalIffUnchanged(p: string)
    ensures Normalise(p) == p <==> Normal(p)
  {
    NormaliseIsNormal(p);
    if Normal(p) {
      assert TrimStart(p) == p;
      SqueezeKeeps(p, false);
    }
  }

  // ---- Differences that do not matter ----

  /** The same character, or the two cases of one ASCII letter. */
  predicate SameLetter(c: char, d: char)
  {
    || c == d
    || ('A' <= c <= 'Z' && d as int == c as int + 32)
    || ('A' <= d <= 'Z' && c as int == d as int + 32)
  }

  /** Equal but for the case of ASCII letters. */
  ghost predicate SameUpToCase(p: string, q: string)
  {
    |p| == |q| && forall i | 0 <= i < |p| :: SameLetter(p[i], q[i])
  }

  lemma {:induction false} CaseIsIgnored(p: string, q: string, word: string)
    requires SameUpToCase(p, q)
    ensures PiecesFrom(p, word) == PiecesFrom(q, word)
    decreases |p|
  {
    if p != "" {
      assert SameLetter(p[0], q[0]);
      assert ToLower(p[0]) == ToLower(q[0]) && (p[0] == '/' <==> q[0] == '/');
      CaseIsIgnored(p[1..], q[1..], if p[0] == '/' then "" else word + [ToLower(p[0])]);
    }
  }

  lemma {:induction false} SlashRunsAreIgnored(p: string, q: string, word: string)
    ensures PiecesFrom(p + "//" + q, word) == PiecesFrom(p + "/" + q, word)
    decreases |p|
  {
    var two, one := p + "//" + q, p + "/" + q;
    if p == "" {
      assert two[1..] == "/" + q && one[1..] == q && two[1..][1..] == q;
    } else {
      assert two[1..] == p[1..] + "//" + q && one[1..] == p[1..] + "/" + q;
      SlashRunsAreIgnored(p[1..], q, if p[0] == '/' then "" else word + [ToLower(p[0])]);
    }
  }

  lemma {:induction false} TrailingSlashIsIgnored(p: string, word: string)
    ensures PiecesFrom(p + "/", word) == PiecesFrom(p, word)
    decreases |p|
  {
    if p == "" {
      assert (p + "/")[1..] == "";
    } else {
      assert (p + "/")[1..] == p[1..] + "/";
      TrailingSlashIsIgnored(p[1..], if p[0] == '/' then "" else word + [ToLower(p[0])]);
    }
  }

  lemma LeadingSlashIsIgnored(p: string)
    ensures Pieces("/" + p) == Pieces(p)
  {
    assert ("/" + p)[1..] == p;
  }

  /** One harmless edit: letter case, a leading or trailing slash, or one slash of a run of slashes. */
  ghost predicate Similar(p: string, q: string)
  {
    || SameUpToCase(p, q)
    || q == "/" + p
    || q == p + "/"
    || (exists i | 0 < i < |p| :: p[i] == '/' == p[i - 1] && q == p[..i] + p[i + 1..])
  }

  lemma DropSlash(p: string, i: nat)
    requires 0 < i < |p| && p[i] == '/' == p[i - 1]
    ensures Pieces(p) == Pieces(p[..i] + p[i + 1..])
  {
    var a, b := p[..i - 1], p[i + 1..];
    assert p[i - 1..i + 1] == "//" && p[i - 1..i] == "/";
    assert p == a + p[i - 1..i + 1] + b;
    assert p[..i] == a + p[i - 1..i];
    SlashRunsAreIgnored(a, b, "");
  }

  lemma SimilarSamePieces(p: string, q: string)
    requires Similar(p, q)
    ensures Pieces(p) == Pieces(q)
  {
    if SameUpToCase(p, q) {
      CaseIsIgnored(p, q, "");
    } else if q == "/" + p {
      LeadingSlashIsIgnored(p);
    } else if q == p + "/" {
      TrailingSlashIsIgnored(p, "");
    } else {
      var i :| 0 < i < |p| && p[i] == '/' == p[i - 1] && q == p[..i] + p[i + 1..];
      DropSlash(p, i);
    }
  }

  /** Any number of harmless edits, in either direction, keeps the segments the tries see. */
  lemma {:induction false} EditsAreIgnored(paths: seq<string>)
    requires paths != []
    requires forall k | 0 < k < |paths| :: Similar(paths[k - 1], paths[k]) || Similar(paths[k], paths[k - 1])
    ensures Segments(Normalise(paths[0])) == Segments(Normalise(paths[|paths| - 1]))
  {
    SegmentsOfNormalised(paths[0]);
    SegmentsOfNormalised(paths[|paths| - 1]);
    if |paths| > 1 {
      var n := |paths| - 1;
      EditsAreIgnored(paths[..n]);
      SegmentsOfNormalised(paths[n - 1]);
      if Similar(paths[n - 1], paths[n]) {
        SimilarSamePieces(paths[n - 1], paths[n]);
      } else {
        SimilarSamePieces(paths[n], paths[n - 1]);
      }
    }
  }
}
