/** The grouping tab (components/GroupingSection.tsx): the group-size input,
    slicing a shuffled list into numbered groups, the group-count preview and
    the padded export grid. */
module Grouping {
  import opened Common

  /** One group: its number, counted from 1 in slicing order, and its members. */
  datatype Group = Group(groupId: nat, members: seq<Participant>)

  function Min(a: int, b: int): int
  {
    if a <= b then a else b
  }

  // ---------------------------------------------------------------------
  // Slicing (components/GroupingSection.tsx:15-36)

  /** `s` cut into consecutive pieces of `size` elements; the last piece
      holds what is left. */
  function Chunks(s: seq<Participant>, size: nat): seq<seq<Participant>>
    requires size > 0
    decreases |s|
  {
    if s == [] then []
    else [s[..Min(size, |s|)]] + Chunks(s[Min(size, |s|)..], size)
  }

  /** The member lists of the groups, in order. */
  function Members(groups: seq<Group>): seq<seq<Participant>>
  {
    seq(|groups|, g requires 0 <= g < |groups| => groups[g].members)
  }

  /** All pieces joined in order. */
  function Flatten(chunks: seq<seq<Participant>>): seq<Participant>
  {
    if chunks == [] then [] else chunks[0] + Flatten(chunks[1..])
  }

  /** The least integer not below n / size. */
  function CeilDiv(n: nat, size: nat): nat
    requires size > 0
  {
    (n + size - 1) / size
  }

  /** The slicing loop: a piece of `groupSize` participants starting at
      every multiple of `groupSize`, numbered 1, 2, 3, ... */
  method SliceIntoGroups(shuffled: seq<Participant>, groupSize: nat) returns (groups: seq<Group>)
    requires groupSize > 0
    ensures Members(groups) == Chunks(shuffled, groupSize)
    ensures forall g :: 0 <= g < |groups| ==> groups[g].groupId == g + 1
  {
    groups := [];
    var groupId := 1;
    var i := 0;
    while i < |shuffled|
      invariant 0 <= i
      invariant groupId == |groups| + 1
      invariant forall g :: 0 <= g < |groups| ==> groups[g].groupId == g + 1
      invariant Members(groups) + Chunks(shuffled[Min(i, |shuffled|)..], groupSize)
                == Chunks(shuffled, groupSize)
    {
      var end := Min(i + groupSize, |shuffled|);
      var chunk := shuffled[i..end];
      ghost var prev := groups;
      ChunksFrom(shuffled, i, groupSize);
      MembersSnoc(groups, Group(groupId, chunk));
      groups := groups + [Group(groupId, chunk)];
      assert forall g :: 0 <= g < |prev| ==> groups[g] == prev[g];
      groupId := groupId + 1;
      i := i + groupSize;
      assert Min(i, |shuffled|) == end;
      assert Members(groups) + Chunks(shuffled[end..], groupSize)
          == Members(prev) + Chunks(shuffled[Min(i - groupSize, |shuffled|)..], groupSize);
    }
  }

  /** The slicing of `s` from position `i` on starts with the piece at `i`. */
  lemma ChunksFrom(s: seq<Participant>, i: nat, size: nat)
    requires size > 0 && i < |s|
    ensures Chunks(s[i..], size) ==
            [s[i..Min(i + size, |s|)]] + Chunks(s[Min(i + size, |s|)..], size)
  {
    var m := Min(size, |s| - i);
    assert s[i..][..m] == s[i..Min(i + size, |s|)];
    assert s[i..][m..] == s[Min(i + size, |s|)..];
  }

  lemma MembersSnoc(groups: seq<Group>, g: Group)
    ensures Members(groups + [g]) == Members(groups) + [g.members]
  {
  }

  lemma {:induction false} FlattenChunks(s: seq<Participant>, size: nat)
    requires size > 0
    ensures Flatten(Chunks(s, size)) == s
    decreases |s|
  {
    if s != [] {
      var m := Min(size, |s|);
      var c := Chunks(s, size);
      FlattenChunks(s[m..], size);
      assert c[1..] == Chunks(s[m..], size);
      assert s[..m] + s[m..] == s;
    }
  }

  lemma MulMono(a: int, b: int, c: nat)
    requires a <= b
    ensures a * c <= b * c
  {
  }

  /** The quotient is the q with q * size <= x < (q + 1) * size. */
  lemma DivUnique(x: int, size: int, q: int)
    requires size > 0 && q * size <= x < q * size + size
    ensures x / size == q && x % size == x - q * size
  {
    var q' := x / size;
    assert q' * size <= x < q' * size + size;
    assert (q + 1) * size == q * size + size;
    assert (q' + 1) * size == q' * size + size;
    if q' > q {
      MulMono(q + 1, q', size);
    } else if q' < q {
      MulMono(q' + 1, q, size);
    }
  }

  lemma DivStep(x: nat, size: nat)
    requires size > 0
    ensures (x + size) / size == x / size + 1
    ensures (x + size) % size == x % size
  {
    var q := x / size;
    assert q * size <= x < q * size + size;
    assert (q + 1) * size == q * size + size;
    DivUnique(x + size, size, q + 1);
  }

  lemma {:induction false} CountChunks(s: seq<Participant>, size: nat)
    requires size > 0
    ensures |Chunks(s, size)| == CeilDiv(|s|, size)
    decreases |s|
  {
    if s != [] {
      var m := Min(size, |s|);
      CountChunks(s[m..], size);
      if |s| <= size {
        DivUnique(|s| + size - 1, size, 1);
      } else {
        DivStep(|s| - 1, size);
      }
    }
  }

  /** Every piece but the last has exactly `size` elements; the last has
      between 1 and `size`: the remainder of |s| by `size`, or `size` when
      that remainder is 0. */
  lemma {:induction false} ChunkSizes(s: seq<Participant>, size: nat)
    requires size > 0
    ensures forall g :: 0 <= g < |Chunks(s, size)| - 1 ==> |Chunks(s, size)[g]| == size
    ensures s != [] ==>
              var c := Chunks(s, size);
              |c| > 0 && 1 <= |c[|c| - 1]| <= size &&
              |c[|c| - 1]| == (if |s| % size == 0 then size else |s| % size)
    decreases |s|
  {
    if s != [] {
      var m := Min(size, |s|);
      var c := Chunks(s, size);
      var rest := Chunks(s[m..], size);
      ChunkSizes(s[m..], size);
      assert c[1..] == rest;
      if |s| <= size {
        assert s[m..] == [];
        if |s| == size {
          DivUnique(|s|, size, 1);
        } else {
          DivUnique(|s|, size, 0);
        }
      } else {
        assert |c[0]| == size;
        forall g | 0 < g < |c| - 1 ensures |c[g]| == size {
          assert c[g] == rest[g - 1];
        }
        DivStep(|s| - size, size);
        assert c[|c| - 1] == rest[|rest| - 1];
      }
    }
  }

  /** The groups of a slicing: their number is the ceiling of n / size, their
      members joined in order give back the sliced list, every group but the
      last is full and the last holds between 1 and `size`, and groups never
      are empty. */
  lemma SlicingShape(s: seq<Participant>, size: nat)
    requires size > 0
    ensures |Chunks(s, size)| == CeilDiv(|s|, size)
    ensures Flatten(Chunks(s, size)) == s
    ensures forall g :: 0 <= g < |Chunks(s, size)| - 1 ==> |Chunks(s, size)[g]| == size
    ensures forall g :: 0 <= g < |Chunks(s, size)| ==> 1 <= |Chunks(s, size)[g]| <= size
  {
    CountChunks(s, size);
    FlattenChunks(s, size);
    ChunkSizes(s, size);
  }

  // ---------------------------------------------------------------------
  // The group-size input and the preview (components/GroupingSection.tsx:71, 75)

  /** `parseInt(value) || 1`: `parsed` is what `parseInt` gives, None standing
      for NaN; NaN and 0 both become 1. */
  function NormalizeGroupSize(parsed: Option<int>): (size: int)
    ensures size != 0
    ensures parsed.None? || parsed.value == 0 ==> size == 1
    ensures size <= 0 ==> parsed.Some? && parsed.value < 0 && size == parsed.value
    ensures parsed.Some? && parsed.value != 0 ==> size == parsed.value
  {
    match parsed
    case None => 1
    case Some(v) => if v == 0 then 1 else v
  }

  /** `Math.ceil(n / (groupSize || 1))`, computed exactly over the integers. */
  function PreviewGroupCount(n: nat, groupSize: int): (r: int)
    ensures var d := if groupSize == 0 then 1 else groupSize;
            (d > 0 ==> (r - 1) * d < n <= r * d) &&
            (d < 0 ==> r * d <= n < (r - 1) * d)
  {
    var d := if groupSize == 0 then 1 else groupSize;
    if d > 0 then CeilDivBounds(n, d); CeilDiv(n, d)
    else CeilDivBounds(n, -d); -(n / -d)
  }

  lemma CeilDivBounds(n: nat, d: nat)
    requires d > 0
    ensures (CeilDiv(n, d) - 1) * d < n <= CeilDiv(n, d) * d
    ensures (n / d) * d <= n < (n / d + 1) * d
  {
  }

  /** For a positive size the preview announces exactly as many groups as the
      slicing produces. */
  lemma PreviewMatchesGroups(s: seq<Participant>, groupSize: int)
    requires groupSize > 0
    ensures PreviewGroupCount(|s|, groupSize) == |Chunks(s, groupSize)|
  {
    CountChunks(s, groupSize);
  }

  // ---------------------------------------------------------------------
  // The export grid (components/GroupingSection.tsx:38-53)

  /** The size of the largest group. */
  function MaxMembers(groups: seq<Group>): (m: nat)
    requires groups != []
    ensures forall g :: 0 <= g < |groups| ==> |groups[g].members| <= m
    ensures exists g :: 0 <= g < |groups| && |groups[g].members| == m
  {
    if |groups| == 1 then |groups[0].members|
    else
      var rest := MaxMembers(groups[1..]);
      assert forall g :: 1 <= g < |groups| ==> groups[g] == groups[1..][g - 1];
      if |groups[0].members| >= rest then |groups[0].members| else rest
  }

  function MemberNames(ms: seq<Participant>): seq<string>
  {
    seq(|ms|, i requires 0 <= i < |ms| => ms[i].name)
  }

  /** The header: 組別, then 成員 1 up to 成員 `count`. */
  function GridHeader(count: nat): seq<string>
  {
    ["組別"] + seq(count, i requires 0 <= i < count => "成員 " + NatToString(i + 1))
  }

  /** A group's row, padded with empty cells up to `width` members. */
  function GroupRow(g: Group, width: nat): seq<string>
    requires |g.members| <= width
  {
    ["第 " + NatToString(g.groupId) + " 組"] + MemberNames(g.members) +
    seq(width - |g.members|, _ => "")
  }

  /** The export: nothing when there are no groups, otherwise a header sized
      to the largest group and one padded row per group. */
  function ExportGroups(groups: seq<Group>): Option<CsvExport>
  {
    if groups == [] then None
    else
      var width := MaxMembers(groups);
      Some(CsvExport("分組結果.csv", GridHeader(width),
                     seq(|groups|, g requires 0 <= g < |groups| => GroupRow(groups[g], width))))
  }

  /** The grid is rectangular with one column per member of the largest
      group plus one; each row starts with the group's label, then its
      members' names, then empty cells. */
  lemma ExportGridShape(groups: seq<Group>)
    ensures ExportGroups(groups) == None <==> groups == []
    ensures groups != [] ==>
              var e := ExportGroups(groups).value;
              var width := |e.header| - 1;
              (exists g :: 0 <= g < |groups| && |groups[g].members| == width) &&
              (forall g :: 0 <= g < |groups| ==> |groups[g].members| <= width) &&
              e.header[0] == "組別" &&
              (forall i :: 1 <= i <= width ==> e.header[i] == "成員 " + NatToString(i)) &&
              |e.rows| == |groups| &&
              forall g :: 0 <= g < |groups| ==>
                |e.rows[g]| == width + 1 &&
                e.rows[g][0] == "第 " + NatToString(groups[g].groupId) + " 組" &&
                forall j :: 0 <= j < width ==>
                  e.rows[g][j + 1] == (if j < |groups[g].members| then groups[g].members[j].name else "")
  {
  }

  // ---------------------------------------------------------------------
  // The tab's state

  /** The grouping tab. The participant list is fixed while the tab is shown. */
  class GroupingSection {
    const participants: seq<Participant>
    var groupSize: int
    var groups: seq<Group>
    var isGenerated: bool

    constructor (ps: seq<Participant>)
      ensures participants == ps && groupSize == 4 && groups == [] && !isGenerated
    {
      participants := ps;
      groupSize := 4;
      groups := [];
      isGenerated := false;
    }

    /** Editing the size input. */
    method SetGroupSize(parsed: Option<int>)
      modifies this
      ensures groupSize == NormalizeGroupSize(parsed)
      ensures groups == old(groups) && isGenerated == old(isGenerated)
    {
      groupSize := NormalizeGroupSize(parsed);
    }

    /** Generating groups. `shuffled` stands for the shuffle of the
        participants, which is any permutation of them; the shuffle itself is
        not part of this model. An empty list, or a size that is not positive
        (an alert is shown), changes nothing. */
    method GenerateGroups(shuffled: seq<Participant>)
      requires multiset(shuffled) == multiset(participants)
      modifies this
      ensures participants == [] || groupSize <= 0 ==>
                groups == old(groups) && isGenerated == old(isGenerated)
      ensures participants != [] && groupSize > 0 ==>
                isGenerated &&
                Members(groups) == Chunks(shuffled, groupSize) &&
                multiset(Flatten(Members(groups))) == multiset(participants) &&
                forall g :: 0 <= g < |groups| ==> groups[g].groupId == g + 1
      ensures groupSize == old(groupSize)
    {
      if participants == [] {
        return;
      }
      if groupSize <= 0 {
        return;
      }
      groups := SliceIntoGroups(shuffled, groupSize);
      isGenerated := true;
      FlattenChunks(shuffled, groupSize);
    }
  }
}
