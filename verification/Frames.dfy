/** Frames on the serial line: which bytes between frames leave them readable, and where a frame is
    found. */
module Frames {
  import opened Text
  import opened Scanner

  // ---------------------------------------------------------------- bytes between frames

  /** From a tag at i, the first `>` is at g, and it does not end a frame. */
  ghost predicate FailsAt(s: string, i: nat, g: nat) {
    && i + |HEAD| <= g < |s| && s[g] == '>'
    && (forall k | i + |HEAD| <= k < g :: s[k] != '>')
    && (g == i + |HEAD| || g + 1 == |s| || s[g + 1] != '\n')
  }

  /** Noise: every frame tag in it is followed by a `>` that does not end a frame. */
  ghost predicate Barren(s: string) {
    forall i: nat | HeadAt(s, i) :: exists g: nat :: FailsAt(s, i, g)
  }

  /** In particular, bytes without `<` are noise. */
  lemma PlainNoise(s: string)
    requires '<' !in s
    ensures Barren(s)
  {
    forall i: nat ensures !HeadAt(s, i) {
      if i + |HEAD| <= |s| {
        assert s[i..i + |HEAD|][0] == s[i] && HEAD[0] == '<';
      }
    }
  }

  /** No tag begins in noise and ends in the frame after it, since `<` only begins a tag. */
  lemma HeadInside(noise: string, rest: string, i: nat)
    requires i < |noise|
    ensures HeadAt(noise + "<" + rest, i) <==> HeadAt(noise, i)
  {
    var s := noise + "<" + rest;
    if i + |HEAD| <= |noise| {
      assert s[i..i + |HEAD|] == noise[i..i + |HEAD|];
    } else if i + |HEAD| <= |s| {
      assert s[i..i + |HEAD|][|noise| - i] == s[|noise|] == '<';
      assert HEAD[|noise| - i] != '<';
    }
  }

  lemma NoMatchInNoise(noise: string, rest: string, i: nat, j: nat)
    requires Barren(noise) && i < |noise|
    ensures !MatchAt(noise + "<" + rest, i, j)
  {
    var s := noise + "<" + rest;
    HeadInside(noise, rest, i);
    if HeadAt(noise, i) {
      var g: nat :| FailsAt(noise, i, g);
      assert s[g] == noise[g];
      assert s[g + 1] != '\n' || g == i + |HEAD|;
    }
  }

  lemma NoMatchInTail(noise: string, i: nat, j: nat)
    requires Barren(noise)
    ensures !MatchAt(noise, i, j)
  {
    if HeadAt(noise, i) {
      var g: nat :| FailsAt(noise, i, g);
    }
  }

  lemma TagFollows(noise: string, raw: string, after: string)
    requires |HEAD| - 1 <= |raw| && raw[..|HEAD| - 1] == HEAD[1..]
    ensures HeadAt(noise + "<" + (raw + after), |noise|)
  {
    var s := noise + "<" + (raw + after);
    var tag := s[|noise|..|noise| + |HEAD|];
    assert s == (noise + ("<" + raw[..|HEAD| - 1])) + (raw[|HEAD| - 1..] + after);
    assert tag == "<" + raw[..|HEAD| - 1];
    assert HEAD == "<" + HEAD[1..];
  }

  lemma MatchAfterNoise(noise: string, raw: string, rest: string)
    requires WellFormed(raw)
    ensures MatchAt(noise + "<" + (raw + ">\n" + rest), |noise|, |noise| + |raw| + 3)
  {
    var s := noise + "<" + (raw + ">\n" + rest);
    TagFollows(noise, raw, ">\n" + rest);
    forall k | |noise| + |HEAD| <= k < |noise| + |raw| + 1 ensures s[k] != '>' {
      assert s[k] == raw[k - |noise| - 1];
    }
  }

  /** If the bytes before a frame are not barren, a match begins in them. */
  lemma EarlierMatch(noise: string, raw: string, rest: string)
    requires WellFormed(raw) && !Barren(noise)
    ensures exists i: nat, j: nat :: i < |noise| && MatchAt(noise + "<" + (raw + ">\n" + rest), i, j)
  {
    var s := noise + "<" + (raw + ">\n" + rest);
    var i: nat :| HeadAt(noise, i) && !exists g: nat :: FailsAt(noise, i, g);
    HeadInside(noise, raw + ">\n" + rest, i);
    var g := FirstClose(noise, i + |HEAD|);
    FirstCloseIsFirst(noise, i + |HEAD|);
    if g < |noise| {
      assert !FailsAt(noise, i, g);
      assert forall k | 0 <= k < |noise| :: s[k] == noise[k];
      assert MatchAt(s, i, g + 2);
    } else {
      var e := |noise| + |raw| + 3;
      forall k | i + |HEAD| <= k < e - 2 ensures s[k] != '>' {
        if k > |noise| { assert s[k] == raw[k - |noise| - 1]; }
      }
      assert s[e - 2] == '>' && s[e - 1] == '\n';
      assert MatchAt(s, i, e);
    }
  }

  /** A frame after some bytes is found where it stands if and only if those bytes are barren. */
  lemma FrameFound(noise: string, raw: string, rest: string)
    requires WellFormed(raw)
    ensures Find(noise + "<" + (raw + ">\n" + rest)) == Some(Span(|noise|, |noise| + |raw| + 3)) <==> Barren(noise)
  {
    var s := noise + "<" + (raw + ">\n" + rest);
    var m := Some(Span(|noise|, |noise| + |raw| + 3));
    MatchAfterNoise(noise, raw, rest);
    FindIsLeftmost(s);
    if Barren(noise) {
      forall i: nat, j: nat | i < |noise| ensures !MatchAt(s, i, j) {
        NoMatchInNoise(noise, raw + ">\n" + rest, i, j);
      }
      LeftmostUnique(s, Find(s), m);
    } else {
      EarlierMatch(noise, raw, rest);
    }
  }

  lemma FirstPiece(noise: string, raw: string, rest: string)
    requires WellFormed(raw) && Barren(noise)
    ensures Pieces(noise + "<" + (raw + ">\n" + rest)) == [Piece(noise, raw)] + Pieces(rest)
  {
    var s := noise + "<" + (raw + ">\n" + rest);
    FrameFound(noise, raw, rest);
    Unfold(s);
    var m := Find(s).value;
    assert s[..m.start] == noise;
    assert s[m.start + 1..m.end - 2] == raw;
    assert s[m.end..] == rest;
  }

  lemma NothingInNoise(noise: string)
    requires Barren(noise)
    ensures Pieces(noise) == [] && Rest(noise) == noise
  {
    FindIsLeftmost(noise);
    if Find(noise).Some? {
      NoMatchInTail(noise, Find(noise).value.start, Find(noise).value.end);
    }
    Unfold(noise);
  }

  lemma FailsMoves(a: string, b: string, i: nat, g: nat)
    requires FailsAt(b, i, g)
    ensures FailsAt(a + b, |a| + i, |a| + g)
  {
    assert forall k | 0 <= k < |b| :: (a + b)[|a| + k] == b[k];
  }

  /** Noise may be followed by more noise that begins with `<`. */
  lemma BarrenAppend(a: string, b: string)
    requires Barren(a) && Barren(b)
    requires b == "" || b[0] == '<'
    ensures Barren(a + b)
  {
    var s := a + b;
    if b == "" {
      assert s == a;
    } else {
      assert s == a + "<" + b[1..];
      forall i: nat | HeadAt(s, i) ensures exists g: nat :: FailsAt(s, i, g) {
        if i < |a| {
          HeadInside(a, b[1..], i);
          var g: nat :| FailsAt(a, i, g);
          assert FailsAt(s, i, g) by {
            assert forall k | 0 <= k < |a| :: s[k] == a[k];
          }
        } else {
          var k: nat := i - |a|;
          assert s[i..i + |HEAD|] == b[k..k + |HEAD|];
          assert HeadAt(b, k);
          var g: nat :| FailsAt(b, k, g);
          FailsMoves(a, b, k, g);
        }
      }
    }
  }
}
