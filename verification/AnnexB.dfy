/** Annex B byte streams: joining NAL units with start codes, and splitting at them again. */
module AnnexB {
  import opened Wire
  import Rbsp

  const START_CODE: seq<Byte> := [0, 0, 0, 1]

  // Index of the leftmost start code.
  function Index(s: seq<Byte>): Option<nat> {
    if |s| < 4 then None
    else if s[..4] == START_CODE then Some(0)
    else
      match Index(s[1..])
      case Some(i) => Some(i + 1)
      case None => None
  }

  // Leftmost, non-overlapping splitting.
  function Split(s: seq<Byte>): (pieces: seq<seq<Byte>>)
    ensures |pieces| >= 1
  {
    IndexMeaning(s);
    match Index(s)
    case Some(i) => [s[..i]] + Split(s[i + 4..])
    case None => [s]
  }

  function Join(nalus: seq<seq<Byte>>): seq<Byte> {
    if nalus == [] then [] else START_CODE + nalus[0] + Join(nalus[1..])
  }

  function NonEmpty(pieces: seq<seq<Byte>>): seq<seq<Byte>> {
    if pieces == [] then []
    else (if pieces[0] == [] then [] else [pieces[0]]) + NonEmpty(pieces[1..])
  }

  lemma {:induction false} IndexMeaning(s: seq<Byte>)
    ensures Index(s).Some? ==> OccursAt(s, START_CODE, Index(s).value)
    ensures forall i: nat :: OccursAt(s, START_CODE, i) ==> Index(s).Some? && Index(s).value <= i
  {
    if |s| >= 4 && s[..4] != START_CODE {
      IndexMeaning(s[1..]);
      forall i: nat | OccursAt(s, START_CODE, i)
        ensures Index(s).Some? && Index(s).value <= i
      {
        assert i > 0 && s[1..][i - 1..i + 3] == s[i..i + 4];
        assert OccursAt(s[1..], START_CODE, i - 1);
      }
      if Index(s).Some? {
        var j := Index(s[1..]).value;
        assert s[1..][j..j + 4] == s[j + 1..j + 5];
      }
    } else if |s| >= 4 {
      assert s[0..4] == s[..4];
    }
  }

  // No piece contains a start code.
  lemma {:induction false} PiecesAreClean(s: seq<Byte>)
    ensures forall p :: p in Split(s) ==> !Contains(p, START_CODE)
    decreases |s|
  {
    IndexMeaning(s);
    match Index(s)
    case None =>
    case Some(i) =>
      PiecesAreClean(s[i + 4..]);
      forall k: nat
        ensures !OccursAt(s[..i], START_CODE, k)
      {
        if k + 4 <= i {
          assert s[..i][k..k + 4] == s[k..k + 4];
          assert !OccursAt(s, START_CODE, k);
        }
      }
  }

  lemma NoEarlierStartCode(nalu: seq<Byte>, rest: seq<Byte>, i: nat)
    requires !Contains(nalu, START_CODE) && i < |nalu|
    ensures !OccursAt(nalu + START_CODE + rest, START_CODE, i)
  {
    var s := nalu + START_CODE + rest;
    assert s[i..i + 4][3] == s[i + 3];
    if i + 4 <= |nalu| {
      assert s[i..i + 4] == nalu[i..i + 4];
      assert !OccursAt(nalu, START_CODE, i);
    }
  }

  // A start code is found where it stands, even behind a unit that ends in zero bytes.
  lemma SplitFirst(nalu: seq<Byte>, rest: seq<Byte>)
    requires !Contains(nalu, START_CODE)
    ensures Split(nalu + START_CODE + rest) == [nalu] + Split(rest)
  {
    var s := nalu + START_CODE + rest;
    assert s[|nalu|..|nalu| + 4] == START_CODE;
    assert OccursAt(s, START_CODE, |nalu|);
    IndexMeaning(s);
    var i := Index(s).value;
    if i < |nalu| {
      NoEarlierStartCode(nalu, rest, i);
    }
    assert s[..|nalu|] == nalu && s[|nalu| + 4..] == rest;
  }

  lemma SplitLast(nalu: seq<Byte>)
    requires !Contains(nalu, START_CODE)
    ensures Split(nalu) == [nalu]
  {
    IndexMeaning(nalu);
  }

  lemma {:induction false} SplitUnits(nalu: seq<Byte>, nalus: seq<seq<Byte>>)
    requires !Contains(nalu, START_CODE)
    requires forall n :: n in nalus ==> !Contains(n, START_CODE)
    ensures Split(nalu + Join(nalus)) == [nalu] + nalus
    decreases |nalus|
  {
    if nalus == [] {
      assert nalu + Join(nalus) == nalu;
      SplitLast(nalu);
    } else {
      SplitUnits(nalus[0], nalus[1..]);
      JoinFirst(nalu, nalus);
      SplitFirst(nalu, nalus[0] + Join(nalus[1..]));
      assert [nalus[0]] + nalus[1..] == nalus;
    }
  }

  lemma JoinFirst(before: seq<Byte>, nalus: seq<seq<Byte>>)
    requires nalus != []
    ensures before + Join(nalus) == before + START_CODE + (nalus[0] + Join(nalus[1..]))
  {
  }

  lemma {:induction false} NonEmptyOfNonEmpty(nalus: seq<seq<Byte>>)
    requires forall n :: n in nalus ==> n != []
    ensures NonEmpty(nalus) == nalus
  {
    if nalus != [] {
      assert nalus[0] in nalus && forall n :: n in nalus[1..] ==> n in nalus;
      NonEmptyOfNonEmpty(nalus[1..]);
    }
  }

  lemma {:induction false} NonEmptyIsSubset(pieces: seq<seq<Byte>>)
    ensures forall p :: p in NonEmpty(pieces) ==> p in pieces && p != []
  {
    if pieces != [] {
      NonEmptyIsSubset(pieces[1..]);
      forall p | p in NonEmpty(pieces)
        ensures p in pieces && p != []
      {
        if p !in NonEmpty(pieces[1..]) {
          assert p == pieces[0];
        }
      }
    }
  }

  // Splitting undoes joining exactly when no unit contains a start code.
  lemma SplitUndoesJoinExactly(nalus: seq<seq<Byte>>)
    requires forall n :: n in nalus ==> n != []
    ensures NonEmpty(Split(Join(nalus))) == nalus <==> forall n :: n in nalus ==> !Contains(n, START_CODE)
  {
    if forall n :: n in nalus ==> !Contains(n, START_CODE) {
      assert !Contains([], START_CODE);
      SplitUnits([], nalus);
      assert [] + Join(nalus) == Join(nalus);
      assert ([[]] + nalus)[1..] == nalus;
      NonEmptyOfNonEmpty(nalus);
    } else {
      PiecesAreClean(Join(nalus));
      NonEmptyIsSubset(Split(Join(nalus)));
    }
  }

  // Splitting loses nothing but the separators.
  lemma {:induction false} SplitKeepsBytes(s: seq<Byte>)
    ensures Split(s)[0] + Join(Split(s)[1..]) == s
    decreases |s|
  {
    IndexMeaning(s);
    if Index(s).Some? {
      var i := Index(s).value;
      var more := Split(s[i + 4..]);
      SplitKeepsBytes(s[i + 4..]);
      assert Split(s) == [s[..i]] + more && Split(s)[1..] == more;
      JoinFirst(s[..i], more);
      CutAt(s, i);
    } else {
      assert Split(s)[1..] == [] && s + [] == s;
    }
  }

  lemma CutAt(s: seq<Byte>, i: nat)
    requires OccursAt(s, START_CODE, i)
    ensures s[..i] + START_CODE + s[i + 4..] == s
  {
  }

  // A unit escaped as section 7.4.1.1 asks contains no start code, so such units always split back.
  lemma EscapedUnitsAreClean(header: Byte, payload: seq<Byte>)
    ensures !Contains([header] + Rbsp.Escape(payload), START_CODE)
  {
    var nalu := [header] + Rbsp.Escape(payload);
    forall i: nat
      ensures !OccursAt(nalu, START_CODE, i)
    {
      if i + 4 <= |nalu| && nalu[i..i + 4] == START_CODE {
        var u := nalu[i..i + 4];
        assert u[0] == nalu[i] && u[1] == nalu[i + 1] && u[2] == nalu[i + 2] && u[3] == nalu[i + 3];
        Rbsp.EscapeHasNoStartCode(0, payload, if i == 0 then 0 else i - 1);
      }
    }
  }
}
