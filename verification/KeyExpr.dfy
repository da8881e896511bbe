/** Zenoh-style key expressions (daemon/mesh/keyexpr.go). */
module KeyExpr {
  // ---------- what matching means: cutting the key into one piece per pattern chunk ----------

  predicate Piece(p: string, s: seq<string>) {
    if p == "**" then true else if p == "*" then |s| == 1 else s == [p]
  }

  function Joined(pieces: seq<seq<string>>): seq<string> {
    if pieces == [] then [] else pieces[0] + Joined(pieces[1..])
  }

  /** `pieces` cuts the key into consecutive pieces, one fitting each pattern chunk. */
  ghost predicate IsCut(pat: seq<string>, key: seq<string>, pieces: seq<seq<string>>) {
    |pieces| == |pat| && Joined(pieces) == key && forall i :: 0 <= i < |pat| ==> Piece(pat[i], pieces[i])
  }

  predicate Match(pat: seq<string>, key: seq<string>) {
    if pat == [] then key == []
    else exists i :: 0 <= i <= |key| && Piece(pat[0], key[..i]) && Match(pat[1..], key[i..])
  }

  lemma {:induction false} MatchGivesCut(pat: seq<string>, key: seq<string>) returns (pieces: seq<seq<string>>)
    requires Match(pat, key)
    ensures IsCut(pat, key, pieces)
  {
    if pat == [] {
      pieces := [];
    } else {
      var i :| 0 <= i <= |key| && Piece(pat[0], key[..i]) && Match(pat[1..], key[i..]);
      var rest := MatchGivesCut(pat[1..], key[i..]);
      pieces := [key[..i]] + rest;
      assert pieces[1..] == rest;
      assert key == key[..i] + key[i..];
    }
  }

  lemma {:induction false} CutGivesMatch(pat: seq<string>, key: seq<string>, pieces: seq<seq<string>>)
    requires IsCut(pat, key, pieces)
    ensures Match(pat, key)
  {
    if pat != [] {
      var i := |pieces[0]|;
      CutGivesMatch(pat[1..], Joined(pieces[1..]), pieces[1..]);
      assert key[..i] == pieces[0] && key[i..] == Joined(pieces[1..]);
    }
  }

  /** A key matches exactly when it can be cut into consecutive pieces, one per pattern chunk. */
  lemma {:induction false} MatchIffCut(pat: seq<string>, key: seq<string>)
    ensures Match(pat, key) <==> exists pieces :: IsCut(pat, key, pieces)
  {
    if Match(pat, key) {
      var pieces := MatchGivesCut(pat, key);
    }
    if pieces :| IsCut(pat, key, pieces) {
      CutGivesMatch(pat, key, pieces);
    }
  }

  lemma {:induction false} Prepend(p: string, pat: seq<string>, key: seq<string>, j: nat)
    requires j <= |key| && Piece(p, key[..j]) && Match(pat, key[j..])
    ensures Match([p] + pat, key)
  {
    assert ([p] + pat)[1..] == pat;
  }

  lemma Unprepend(pat: seq<string>, key: seq<string>) returns (j: nat)
    requires pat != [] && Match(pat, key)
    ensures j <= |key| && Piece(pat[0], key[..j]) && Match(pat[1..], key[j..])
  {
    j :| 0 <= j <= |key| && Piece(pat[0], key[..j]) && Match(pat[1..], key[j..]);
  }

  ghost predicate SplitsAt(p: seq<string>, q: seq<string>, key: seq<string>, i: nat) {
    i <= |key| && Match(p, key[..i]) && Match(q, key[i..])
  }

  lemma SlicesOfSplit(key: seq<string>, i: nat, j: nat)
    requires j <= i <= |key|
    ensures key[..i][..j] == key[..j] && key[..i][j..] == key[j..][..i - j] && key[i..] == key[j..][i - j..]
  {
  }

  lemma HeadAndTail(p: seq<string>, q: seq<string>)
    requires p != []
    ensures [p[0]] + (p[1..] + q) == p + q && [p[0]] + p[1..] == p
  {
  }

  lemma {:induction false} ConcatSplits(p: seq<string>, q: seq<string>, key: seq<string>) returns (i: nat)
    requires Match(p + q, key)
    ensures SplitsAt(p, q, key, i)
  {
    if p == [] {
      assert p + q == q && key[0..] == key;
      i := 0;
    } else {
      assert (p + q)[0] == p[0] && (p + q)[1..] == p[1..] + q;
      var j := Unprepend(p + q, key);
      var k := ConcatSplits(p[1..], q, key[j..]);
      i := j + k;
      hide Match, Piece;
      SlicesOfSplit(key, i, j);
      Prepend(p[0], p[1..], key[..i], j);
      HeadAndTail(p, []);
    }
  }

  lemma {:induction false} SplitsConcat(p: seq<string>, q: seq<string>, key: seq<string>, i: nat)
    requires SplitsAt(p, q, key, i)
    ensures Match(p + q, key)
  {
    if p == [] {
      assert p + q == q && key[i..] == key;
    } else {
      var j := Unprepend(p, key[..i]);
      hide Match, Piece;
      SlicesOfSplit(key, i, j);
      SplitsConcat(p[1..], q, key[j..], i - j);
      Prepend(p[0], p[1..] + q, key, j);
      HeadAndTail(p, q);
    }
  }

  /** A concatenated pattern matches exactly when the key splits between its two parts. */
  lemma {:induction false} MatchConcat(p: seq<string>, q: seq<string>, key: seq<string>)
    ensures Match(p + q, key) <==> exists i :: SplitsAt(p, q, key, i)
  {
    if Match(p + q, key) {
      var i := ConcatSplits(p, q, key);
    }
    if i :| SplitsAt(p, q, key, i) {
      SplitsConcat(p, q, key, i);
    }
  }

  // ---------- the matcher ----------

  lemma {:induction false} StepMatch(pat: seq<string>, key: seq<string>)
    requires pat != [] && pat[0] != "**"
    ensures Match(pat, key) <==> key != [] && (pat[0] == "*" || pat[0] == key[0]) && Match(pat[1..], key[1..])
  {
    if Match(pat, key) {
      var i :| 0 <= i <= |key| && Piece(pat[0], key[..i]) && Match(pat[1..], key[i..]);
      assert i == 1;
    }
    if key != [] && (pat[0] == "*" || pat[0] == key[0]) && Match(pat[1..], key[1..]) {
      assert key[..1] == [key[0]];
    }
  }

  /** `matchChunks`: a loop over the pattern that backtracks at each "**". */
  method MatchChunks(pat0: seq<string>, key0: seq<string>) returns (b: bool)
    ensures b <==> Match(pat0, key0)
    decreases |pat0|
  {
    var pat, key := pat0, key0;
    while |pat| > 0
      invariant |pat| <= |pat0|
      invariant Match(pat, key) <==> Match(pat0, key0)
      decreases |pat|
    {
      if pat[0] == "**" {
        if |pat| == 1 {
          assert Match(pat[1..], key[|key|..]) && Piece(pat[0], key[..|key|]);
          return true;
        }
        for i := 0 to |key| + 1
          invariant forall j :: 0 <= j < i ==> !Match(pat[1..], key[j..])
        {
          var tail := MatchChunks(pat[1..], key[i..]);
          if tail {
            assert Piece(pat[0], key[..i]);
            return true;
          }
        }
        return false;
      }
      StepMatch(pat, key);
      if key == [] || (pat[0] != "*" && pat[0] != key[0]) { return false; }
      pat, key := pat[1..], key[1..];
    }
    b := |key| == 0;
  }

  // ---------- keys as strings ----------

  function TrimLeft(s: string): string { if s != "" && s[0] == '/' then TrimLeft(s[1..]) else s }

  function TrimRight(s: string): string { if s != "" && s[|s| - 1] == '/' then TrimRight(s[..|s| - 1]) else s }

  /** `strings.Split(s, "/")`. */
  function Split(s: string): seq<string> {
    if s == "" then [""]
    else
      var rest := Split(s[1..]);
      if s[0] == '/' then [""] + rest else if rest == [] then [s] else [[s[0]] + rest[0]] + rest[1..]
  }

  function SplitKey(s: string): seq<string> {
    var t := TrimRight(TrimLeft(s));
    if t == "" then [] else Split(t)
  }

  function Join(chunks: seq<string>): string {
    if chunks == [] then "" else if |chunks| == 1 then chunks[0] else chunks[0] + "/" + Join(chunks[1..])
  }

  predicate Chunks(chunks: seq<string>) { forall c :: c in chunks ==> c != "" && '/' !in c }

  lemma {:induction false} SplitChunk(c: string, rest: string)
    requires '/' !in c
    ensures Split(c + "/" + rest) == [c] + Split(rest) && Split(c) == [c]
  {
    if c == "" {
      assert (c + "/" + rest)[1..] == rest;
    } else {
      SplitChunk(c[1..], rest);
      assert (c + "/" + rest)[1..] == c[1..] + "/" + rest;
      assert c == [c[0]] + c[1..];
    }
  }

  lemma {:induction false} SplitJoin(chunks: seq<string>)
    requires Chunks(chunks) && chunks != []
    ensures Split(Join(chunks)) == chunks
    ensures Join(chunks) != "" && Join(chunks)[0] != '/' && Join(chunks)[|Join(chunks)| - 1] != '/'
  {
    assert chunks[0] in chunks;
    if |chunks| == 1 {
      SplitChunk(chunks[0], "");
    } else {
      assert forall c :: c in chunks[1..] ==> c in chunks;
      SplitJoin(chunks[1..]);
      SplitChunk(chunks[0], Join(chunks[1..]));
    }
  }

  /** Surrounding slashes aside, a key splits into exactly the chunks it was joined from. */
  lemma {:induction false} SplitKeyOfJoin(chunks: seq<string>)
    requires Chunks(chunks)
    ensures SplitKey(Join(chunks)) == chunks && SplitKey("/" + Join(chunks) + "/") == chunks
  {
    var j := Join(chunks);
    if chunks == [] {
      assert TrimLeft("/") == TrimLeft(("/")[1..]) == "" && ("//")[1..] == "/";
      assert "/" + j + "/" == "//" && TrimLeft("//") == "";
    } else {
      SplitJoin(chunks);
      hide Join, Split;
      assert ("/" + j + "/")[1..] == j + "/" && (j + "/")[..|j|] == j;
      assert TrimLeft("/" + j + "/") == TrimLeft(j + "/") == j + "/";
      assert TrimRight(j + "/") == TrimRight(j) == j;
    }
  }

  method MatchKey(expr: string, key: string) returns (b: bool)
    ensures b <==> exists pieces :: IsCut(SplitKey(expr), SplitKey(key), pieces)
  {
    b := MatchChunks(SplitKey(expr), SplitKey(key));
    MatchIffCut(SplitKey(expr), SplitKey(key));
  }
}
