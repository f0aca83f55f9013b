/** Types and helpers shared by the three components: the participant record,
    the hand-off to the CSV exporter, decimal rendering of numbers, and
    order-preserving subsequences. */
module Common {

  /** A participant: an opaque identifier generated when the name was parsed,
      and the trimmed name. Two participants may share a name, never an id. */
  datatype Participant = Participant(id: string, name: string)

  datatype Option<T> = None | Some(value: T)

  /** What a component hands to the CSV exporter: the file name, the header
      row and the data rows. The exporter itself is not part of this model. */
  datatype CsvExport = CsvExport(filename: string, header: seq<string>, rows: seq<seq<string>>)

  /** The set of identifiers occurring in `ps`. */
  function Ids(ps: seq<Participant>): set<string>
  {
    if ps == [] then {} else {ps[0].id} + Ids(ps[1..])
  }

  lemma {:induction false} InIds(ps: seq<Participant>, x: string)
    ensures x in Ids(ps) <==> exists i :: 0 <= i < |ps| && ps[i].id == x
  {
    if ps != [] {
      InIds(ps[1..], x);
      if x in Ids(ps[1..]) {
        var i :| 0 <= i < |ps[1..]| && ps[1..][i].id == x;
        assert ps[i + 1].id == x;
      }
      forall i | 0 <= i < |ps| && ps[i].id == x && i > 0
        ensures x in Ids(ps[1..])
      {
        assert ps[1..][i - 1].id == x;
      }
    }
  }

  /** No identifier occurs twice. */
  ghost predicate DistinctIds(ps: seq<Participant>)
  {
    forall i, j :: 0 <= i < j < |ps| ==> ps[i].id != ps[j].id
  }

  /** A list whose ids are pairwise distinct has as many ids as entries. */
  lemma {:induction false} DistinctIdsCard(ps: seq<Participant>)
    requires DistinctIds(ps)
    ensures |Ids(ps)| == |ps|
  {
    if ps != [] {
      assert DistinctIds(ps[1..]) by {
        forall i, j | 0 <= i < j < |ps[1..]| ensures ps[1..][i].id != ps[1..][j].id {
          assert ps[1..][i] == ps[i + 1] && ps[1..][j] == ps[j + 1];
        }
      }
      DistinctIdsCard(ps[1..]);
      assert ps[0].id !in Ids(ps[1..]) by {
        InIds(ps[1..], ps[0].id);
        forall i | 0 <= i < |ps[1..]| ensures ps[1..][i].id != ps[0].id {
          assert ps[1..][i] == ps[i + 1];
        }
      }
    }
  }

  /** `a` can be obtained from `b` by deleting elements: it holds the
      elements of a subset of `b`'s positions, in `b`'s order. */
  predicate IsSubsequence<T(==)>(a: seq<T>, b: seq<T>)
    decreases |b|
  {
    if a == [] then true
    else if b == [] then false
    else if a[0] == b[0] then IsSubsequence(a[1..], b[1..])
    else IsSubsequence(a, b[1..])
  }

  /** A subsequence of `b` is still a subsequence of `b` with one more element in front. */
  lemma {:induction false} SubsequenceCons<T>(a: seq<T>, x: T, b: seq<T>)
    requires IsSubsequence(a, b)
    ensures IsSubsequence(a, [x] + b)
    decreases |b|, 1
  {
    assert ([x] + b)[1..] == b;
    if a != [] && a[0] == x {
      SubsequenceTail(a, b);
    }
  }

  /** Dropping the first element of a subsequence leaves a subsequence of the same sequence. */
  lemma {:induction false} SubsequenceTail<T>(a: seq<T>, b: seq<T>)
    requires a != [] && IsSubsequence(a, b)
    ensures IsSubsequence(a[1..], b)
    decreases |b|, 0
  {
    assert [b[0]] + b[1..] == b;
    if a[0] == b[0] {
      SubsequenceCons(a[1..], b[0], b[1..]);
    } else {
      SubsequenceTail(a, b[1..]);
      SubsequenceCons(a[1..], b[0], b[1..]);
    }
  }

  /** The decimal digit character for `d`. */
  function DigitChar(d: nat): (c: char)
    requires d < 10
    ensures '0' <= c <= '9' && c as int - '0' as int == d
  {
    ('0' as int + d) as char
  }

  predicate IsDigits(s: string)
  {
    forall i :: 0 <= i < |s| ==> '0' <= s[i] <= '9'
  }

  /** The decimal rendering of a natural number, as JavaScript's template
      literal `${n}` produces it for a non-negative integer. */
  function NatToString(n: nat): (s: string)
    ensures |s| >= 1 && IsDigits(s)
  {
    if n < 10 then [DigitChar(n)] else NatToString(n / 10) + [DigitChar(n % 10)]
  }

  /** The value of a string of decimal digits. */
  function DecimalValue(s: string): nat
    requires IsDigits(s)
  {
    if s == [] then 0
    else 10 * DecimalValue(s[..|s| - 1]) + (s[|s| - 1] as int - '0' as int)
  }

  /** Reading a rendered number back gives the number: the rendering of
      distinct numbers differs. */
  lemma {:induction false} DecimalRoundTrip(n: nat)
    ensures DecimalValue(NatToString(n)) == n
  {
    if n >= 10 {
      DecimalRoundTrip(n / 10);
      var s := NatToString(n);
      assert s[..|s| - 1] == NatToString(n / 10);
    }
  }
}
