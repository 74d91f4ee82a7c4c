/**
 The emulation-prevention step of the H.264 bit reader, next to the decoder of section 7.3.1 of
 ITU-T H.264 and the encapsulation of section 7.4.1.1.
 */
module Rbsp {
  import opened Wire

  const STUFFED: seq<Byte> := [0, 0, 3]

  predicate EndsInTwoZeros(out: seq<Byte>) {
    |out| >= 2 && out[|out| - 2] == 0 && out[|out| - 1] == 0
  }

  // One turn of the reader's loop: the test looks at what was kept, not at what was read.
  function Keep(out: seq<Byte>, value: Byte): seq<Byte> {
    if EndsInTwoZeros(out) && value == 3 then out else out + [value]
  }

  function StripOnto(out: seq<Byte>, s: seq<Byte>): seq<Byte>
    decreases |s|
  {
    if s == [] then out else StripOnto(Keep(out, s[0]), s[1..])
  }

  // Drops every 03 that comes after two kept zero bytes.
  function Stripped(s: seq<Byte>): seq<Byte> {
    StripOnto([], s)
  }

  // Section 7.3.1: a 24-bit window of the input equal to 00 00 03 loses its last byte.
  function Unescape(s: seq<Byte>): seq<Byte> {
    if |s| >= 3 && s[..3] == STUFFED then [0, 0] + Unescape(s[3..])
    else if s == [] then []
    else [s[0]] + Unescape(s[1..])
  }

  // Section 7.4.1.1, with `zeros` zero bytes already written. A payload that ends in two zero
  // bytes gets a final 03.
  function EscapeAfter(zeros: nat, s: seq<Byte>): seq<Byte>
    requires zeros <= 2
    decreases |s|
  {
    if s == [] then (if zeros == 2 then [3] else [])
    else if zeros == 2 && s[0] <= 3 then [3, s[0]] + EscapeAfter(if s[0] == 0 then 1 else 0, s[1..])
    else [s[0]] + EscapeAfter(if s[0] == 0 then zeros + 1 else 0, s[1..])
  }

  function Escape(s: seq<Byte>): seq<Byte> {
    EscapeAfter(0, s)
  }

  function Zeros(n: nat): seq<Byte>
    requires n <= 2
  {
    if n == 0 then [] else if n == 1 then [0] else [0, 0]
  }

  lemma {:induction false} StripAppend(out: seq<Byte>, s: seq<Byte>, t: seq<Byte>)
    ensures StripOnto(out, s + t) == StripOnto(StripOnto(out, s), t)
    decreases |s|
  {
    if s == [] {
      assert s + t == t;
    } else {
      assert (s + t)[1..] == s[1..] + t;
      StripAppend(Keep(out, s[0]), s[1..], t);
    }
  }

  lemma {:induction false} StripKeepsPrefix(out: seq<Byte>, s: seq<Byte>)
    ensures out <= StripOnto(out, s)
    decreases |s|
  {
    if s != [] {
      StripKeepsPrefix(Keep(out, s[0]), s[1..]);
    }
  }

  lemma {:induction false} StripAfterStandard(out: seq<Byte>, s: seq<Byte>)
    ensures StripOnto(out, s) == StripOnto(out, Unescape(s))
    decreases |s|
  {
    if |s| >= 3 && s[..3] == STUFFED {
      var more := out + [0] + [0];
      assert s == STUFFED + s[3..];
      StripAppend(out, STUFFED, s[3..]);
      StripAppend(out, [0, 0], Unescape(s[3..]));
      StripThree(out);
      StripAfterStandard(more, s[3..]);
    } else if s != [] {
      assert Unescape(s)[1..] == Unescape(s[1..]);
      StripAfterStandard(Keep(out, s[0]), s[1..]);
    }
  }

  lemma StripThree(out: seq<Byte>)
    ensures StripOnto(out, STUFFED) == out + [0] + [0] == StripOnto(out, [0, 0])
  {
  }

  lemma StuffedAcross(out: seq<Byte>, s: seq<Byte>)
    requires EndsInTwoZeros(out) && s != [] && s[0] == 3
    ensures Contains(out + s, STUFFED)
  {
    assert (out + s)[|out| - 2..|out| + 1] == STUFFED;
    assert OccursAt(out + s, STUFFED, |out| - 2);
  }

  lemma {:induction false} StripOfUnstuffed(out: seq<Byte>, s: seq<Byte>)
    requires !Contains(out + s, STUFFED)
    ensures StripOnto(out, s) == out + s
    decreases |s|
  {
    if s == [] {
      assert out + s == out;
    } else {
      if EndsInTwoZeros(out) && s[0] == 3 {
        StuffedAcross(out, s);
      }
      assert out + [s[0]] + s[1..] == out + s;
      StripOfUnstuffed(out + [s[0]], s[1..]);
    }
  }

  lemma KeepStaysUnstuffed(out: seq<Byte>, value: Byte)
    requires !Contains(out, STUFFED)
    ensures !Contains(Keep(out, value), STUFFED)
  {
    var next := Keep(out, value);
    forall i: nat
      ensures !OccursAt(next, STUFFED, i)
    {
      if i + 3 <= |out| {
        assert next[i..i + 3] == out[i..i + 3];
        assert !OccursAt(out, STUFFED, i);
      } else if i + 3 == |next| {
        assert next[i] == next[i..i + 3][0] && next[i + 1] == next[i..i + 3][1] && next[i + 2] == next[i..i + 3][2];
      }
    }
  }

  lemma {:induction false} StripIsUnstuffed(out: seq<Byte>, s: seq<Byte>)
    requires !Contains(out, STUFFED)
    ensures !Contains(StripOnto(out, s), STUFFED)
    decreases |s|
  {
    if s != [] {
      KeepStaysUnstuffed(out, s[0]);
      StripIsUnstuffed(Keep(out, s[0]), s[1..]);
    }
  }

  // The reader is the standard decoder followed by the same dropping of 03 bytes.
  lemma ReaderIsStandardThenStrip(s: seq<Byte>)
    ensures Stripped(s) == Stripped(Unescape(s))
  {
    StripAfterStandard([], s);
  }

  // It agrees with the standard exactly when the true RBSP has no 00 00 03.
  lemma ReaderAgreesExactly(s: seq<Byte>)
    ensures Stripped(s) == Unescape(s) <==> !Contains(Unescape(s), STUFFED)
  {
    ReaderIsStandardThenStrip(s);
    StripIsUnstuffed([], s);
    if !Contains(Unescape(s), STUFFED) {
      assert [] + Unescape(s) == Unescape(s);
      StripOfUnstuffed([], Unescape(s));
    }
  }

  lemma UnescapeDropsThree(s: seq<Byte>)
    ensures Unescape(STUFFED + s) == [0, 0] + Unescape(s)
  {
    assert (STUFFED + s)[..3] == STUFFED && (STUFFED + s)[3..] == s;
  }

  lemma UnescapeKeeps(b: Byte, s: seq<Byte>)
    requires b != 0 || |s| < 2 || s[0] != 0 || s[1] != 3
    ensures Unescape([b] + s) == [b] + Unescape(s)
  {
    var e := [b] + s;
    assert e[1..] == s;
    if |e| >= 3 {
      assert e[..3][0] == b && e[..3][1] == s[0] && e[..3][2] == s[1];
    }
  }

  lemma {:induction false} UnescapeAfterZeros(zeros: nat, s: seq<Byte>)
    requires zeros <= 2
    ensures Unescape(Zeros(zeros) + EscapeAfter(zeros, s)) == Zeros(zeros) + s
    decreases |s|
  {
    if s == [] {
      UnescapeEnd(zeros);
    } else if s[0] == 0 {
      var zeros' := if zeros == 2 then 1 else zeros + 1;
      UnescapeAfterZeros(zeros', s[1..]);
      UnescapeZero(zeros, s);
    } else {
      UnescapeAfterZeros(0, s[1..]);
      UnescapeNonZero(zeros, s);
    }
  }

  lemma UnescapeEnd(zeros: nat)
    requires zeros <= 2
    ensures Unescape(Zeros(zeros) + EscapeAfter(zeros, [])) == Zeros(zeros) + []
  {
    if zeros == 2 {
      UnescapeDropsThree([]);
      assert Zeros(2) + EscapeAfter(2, []) == STUFFED + [];
    } else if zeros == 1 {
      UnescapeKeeps(0, []);
      assert [0] + [] == Zeros(1);
    }
  }

  lemma UnescapeZero(zeros: nat, s: seq<Byte>)
    requires zeros <= 2 && s != [] && s[0] == 0
    requires var zeros' := if zeros == 2 then 1 else zeros + 1;
             Unescape(Zeros(zeros') + EscapeAfter(zeros', s[1..])) == Zeros(zeros') + s[1..]
    ensures Unescape(Zeros(zeros) + EscapeAfter(zeros, s)) == Zeros(zeros) + s
  {
    if zeros == 2 {
      var rest := [0] + EscapeAfter(1, s[1..]);
      StuffedZero(s);
      UnescapeDropsThree(rest);
      assert [0] + s[1..] == s;
    } else if zeros == 1 {
      assert [0] + ([0] + EscapeAfter(2, s[1..])) == [0, 0] + EscapeAfter(2, s[1..]);
      assert [0] + s == [0, 0] + s[1..];
    } else {
      assert [] + ([0] + EscapeAfter(1, s[1..])) == [0] + EscapeAfter(1, s[1..]);
      assert [] + s == [0] + s[1..];
    }
  }

  lemma StuffedZero(s: seq<Byte>)
    requires s != [] && s[0] == 0
    ensures Zeros(2) + EscapeAfter(2, s) == STUFFED + ([0] + EscapeAfter(1, s[1..]))
  {
    assert EscapeAfter(2, s) == [3, 0] + EscapeAfter(1, s[1..]);
  }

  lemma UnescapeNonZero(zeros: nat, s: seq<Byte>)
    requires zeros <= 2 && s != [] && s[0] != 0
    requires Unescape(Zeros(0) + EscapeAfter(0, s[1..])) == Zeros(0) + s[1..]
    ensures Unescape(Zeros(zeros) + EscapeAfter(zeros, s)) == Zeros(zeros) + s
  {
    var tail := [s[0]] + EscapeAfter(0, s[1..]);
    UnescapeFirst(s);
    if zeros == 2 && s[0] <= 3 {
      UnescapeDropsThree(tail);
      StuffedNonZero(s);
    } else {
      UnescapeLeadingZeros(zeros, tail);
    }
  }

  lemma UnescapeFirst(s: seq<Byte>)
    requires s != [] && s[0] != 0
    requires Unescape(Zeros(0) + EscapeAfter(0, s[1..])) == Zeros(0) + s[1..]
    ensures Unescape([s[0]] + EscapeAfter(0, s[1..])) == s
  {
    var rest := EscapeAfter(0, s[1..]);
    assert Zeros(0) + rest == rest && Zeros(0) + s[1..] == s[1..];
    UnescapeKeeps(s[0], rest);
  }

  lemma StuffedNonZero(s: seq<Byte>)
    requires s != [] && 0 < s[0] <= 3
    ensures Zeros(2) + EscapeAfter(2, s) == STUFFED + ([s[0]] + EscapeAfter(0, s[1..]))
  {
    assert EscapeAfter(2, s) == [3, s[0]] + EscapeAfter(0, s[1..]);
  }

  lemma UnescapeLeadingZeros(zeros: nat, tail: seq<Byte>)
    requires zeros <= 2 && tail != [] && tail[0] != 0 && (zeros == 2 ==> tail[0] != 3)
    ensures Unescape(Zeros(zeros) + tail) == Zeros(zeros) + Unescape(tail)
  {
    if zeros == 0 {
      assert Zeros(0) + tail == tail;
    } else {
      UnescapeKeeps(0, tail);
      if zeros == 2 {
        UnescapeKeeps(0, [0] + tail);
        assert Zeros(2) + tail == [0] + ([0] + tail);
        assert Zeros(2) + Unescape(tail) == [0] + ([0] + Unescape(tail));
      }
    }
  }

  // The standard decoder undoes the standard encapsulation.
  lemma StandardRoundTrip(x: seq<Byte>)
    ensures Unescape(Escape(x)) == x
  {
    UnescapeAfterZeros(0, x);
    assert Zeros(0) + Escape(x) == Escape(x) && Zeros(0) + x == x;
  }

  // The reader undoes it exactly when the payload has no 00 00 03.
  lemma ReaderUndoesEscapeExactly(x: seq<Byte>)
    ensures Stripped(Escape(x)) == x <==> !Contains(x, STUFFED)
  {
    StandardRoundTrip(x);
    ReaderAgreesExactly(Escape(x));
  }

  // Even when 00 00 03 does occur, every byte before it is read as packed.
  lemma ReaderKeepsUnstuffedPrefix(y: seq<Byte>, z: seq<Byte>)
    requires !Contains(y, STUFFED)
    ensures y <= Stripped(Escape(y + z))
  {
    StandardRoundTrip(y + z);
    ReaderIsStandardThenStrip(Escape(y + z));
    StripAppend([], y, z);
    assert [] + y == y;
    StripOfUnstuffed([], y);
    StripKeepsPrefix(y, z);
  }

  // A payload the reader gets wrong: 00 00 03 travels as 00 00 03 03 and comes back as 00 00.
  lemma ReaderLosesPackedThree()
    ensures Unescape([0, 0, 3, 3]) == [0, 0, 3]
    ensures Stripped([0, 0, 3, 3]) == [0, 0]
    ensures Escape([0, 0, 3]) == [0, 0, 3, 3]
  {
  }

  lemma {:induction false} EscapeHasNoStartCode(zeros: nat, s: seq<Byte>, i: nat)
    requires zeros <= 2
    requires i + 3 <= zeros + |EscapeAfter(zeros, s)|
    ensures var e := Zeros(zeros) + EscapeAfter(zeros, s);
            e[i] == 0 && e[i + 1] == 0 ==> e[i + 2] >= 3
    decreases |s|
  {
    var e := Zeros(zeros) + EscapeAfter(zeros, s);
    if s != [] {
      if zeros == 2 && s[0] <= 3 {
        var z' := if s[0] == 0 then 1 else 0;
        var shorter := Zeros(z') + EscapeAfter(z', s[1..]);
        var skipped := 4 - z';
        assert EscapeAfter(zeros, s) == [3, s[0]] + EscapeAfter(z', s[1..]);
        assert e[skipped..] == shorter;
        if i >= skipped {
          EscapeHasNoStartCode(z', s[1..], i - skipped);
        }
      } else {
        var z' := if s[0] == 0 then zeros + 1 else 0;
        var shorter := Zeros(z') + EscapeAfter(z', s[1..]);
        var skipped := zeros + 1 - z';
        assert e[skipped..] == shorter;
        if i >= skipped {
          EscapeHasNoStartCode(z', s[1..], i - skipped);
        }
      }
    }
  }
}
