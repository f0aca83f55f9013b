/** The participant list as the input tab maintains it
    (components/InputSection.tsx): appending parsed names, clearing the list,
    counting names to flag duplicates, and the one-click deduplication that
    keeps the first participant of each name. */
module NameList {
  import opened Common

  // ---------------------------------------------------------------------
  // Names

  /** The set of names occurring in `ps`. */
  function Names(ps: seq<Participant>): set<string>
  {
    if ps == [] then {} else {ps[0].name} + Names(ps[1..])
  }

  lemma {:induction false} InNames(ps: seq<Participant>, n: string)
    ensures n in Names(ps) <==> exists i :: 0 <= i < |ps| && ps[i].name == n
  {
    if ps != [] {
      InNames(ps[1..], n);
      if n in Names(ps[1..]) {
        var i :| 0 <= i < |ps[1..]| && ps[1..][i].name == n;
        assert ps[i + 1].name == n;
      }
      forall i | 0 <= i < |ps| && ps[i].name == n && i > 0
        ensures n in Names(ps[1..])
      {
        assert ps[1..][i - 1].name == n;
      }
    }
  }

  lemma {:induction false} NamesAppend(a: seq<Participant>, b: seq<Participant>)
    ensures Names(a + b) == Names(a) + Names(b)
  {
    if a == [] {
      assert a + b == b;
    } else {
      assert (a + b)[1..] == a[1..] + b;
      NamesAppend(a[1..], b);
    }
  }

  /** No name occurs twice. */
  ghost predicate NamesDistinct(ps: seq<Participant>)
  {
    forall i, j :: 0 <= i < j < |ps| ==> ps[i].name != ps[j].name
  }

  /** The position of the first participant named `n`, or |ps| when there is none. */
  function FirstIndex(ps: seq<Participant>, n: string): (i: nat)
    ensures i <= |ps|
    ensures i < |ps| ==> ps[i].name == n
    ensures forall j :: 0 <= j < i ==> ps[j].name != n
  {
    if ps == [] then 0
    else if ps[0].name == n then 0
    else 1 + FirstIndex(ps[1..], n)
  }

  // ---------------------------------------------------------------------
  // Counting names (components/InputSection.tsx:23-30)

  /** The number of participants in `ps` named `n`. */
  function Count(ps: seq<Participant>, n: string): nat
  {
    if ps == [] then 0
    else Count(ps[..|ps| - 1], n) + (if ps[|ps| - 1].name == n then 1 else 0)
  }

  /** `counts` is the name tally of `ps`: its keys are exactly the names of
      `ps`, and each name maps to the number of participants carrying it. */
  ghost predicate IsNameCountOf(counts: map<string, nat>, ps: seq<Participant>)
  {
    counts.Keys == Names(ps) && forall n :: n in counts ==> counts[n] == Count(ps, n)
  }

  /** The tally the input tab folds over the list, one increment per participant. */
  method CountNames(ps: seq<Participant>) returns (counts: map<string, nat>)
    ensures IsNameCountOf(counts, ps)
  {
    counts := map[];
    var i := 0;
    while i < |ps|
      invariant 0 <= i <= |ps|
      invariant IsNameCountOf(counts, ps[..i])
    {
      var p := ps[i];
      ghost var prev := counts;
      var c := if p.name in counts then counts[p.name] else 0;
      counts := counts[p.name := c + 1];
      assert ps[..i + 1] == ps[..i] + [p];
      assert ps[..i + 1][..i] == ps[..i];
      assert [p][1..] == [];
      NamesAppend(ps[..i], [p]);
      forall n | n in counts
        ensures counts[n] == Count(ps[..i + 1], n)
      {
        assert Count(ps[..i + 1], n) == Count(ps[..i], n) + (if p.name == n then 1 else 0);
        if n != p.name {
          assert n in Names(ps[..i]);
        } else if p.name !in prev {
          CountPositive(ps[..i], n);
          InNames(ps[..i], n);
        }
      }
      i := i + 1;
    }
    assert ps[..|ps|] == ps;
  }

  /** Whether some name is counted more than once. */
  predicate HasDuplicates(counts: map<string, nat>)
  {
    exists n :: n in counts && counts[n] > 1
  }

  lemma {:induction false} CountPositive(ps: seq<Participant>, n: string)
    ensures Count(ps, n) > 0 <==> exists i :: 0 <= i < |ps| && ps[i].name == n
  {
    if ps != [] {
      var last := |ps| - 1;
      var init := ps[..last];
      CountPositive(init, n);
      if ps[last].name != n {
        if Count(init, n) > 0 {
          var i :| 0 <= i < |init| && init[i].name == n;
          assert ps[i].name == n;
        }
        forall i | 0 <= i < |ps| && ps[i].name == n
          ensures exists i' :: 0 <= i' < |init| && init[i'].name == n
        {
          assert init[i] == ps[i];
        }
      }
    }
  }

  lemma {:induction false} CountAtLeastTwo(ps: seq<Participant>, n: string)
    ensures Count(ps, n) >= 2 <==>
            exists i, j :: 0 <= i < j < |ps| && ps[i].name == n && ps[j].name == n
  {
    if ps != [] {
      var last := |ps| - 1;
      var init := ps[..last];
      CountAtLeastTwo(init, n);
      CountPositive(init, n);
      if ps[last].name == n {
        if Count(ps, n) >= 2 {
          var i :| 0 <= i < |init| && init[i].name == n;
          assert ps[i].name == n && ps[last].name == n;
        }
        if exists i, j :: 0 <= i < j < |ps| && ps[i].name == n && ps[j].name == n {
          var i, j :| 0 <= i < j < |ps| && ps[i].name == n && ps[j].name == n;
          assert init[i].name == n;
        }
      } else {
        if Count(ps, n) >= 2 {
          var i, j :| 0 <= i < j < |init| && init[i].name == n && init[j].name == n;
          assert ps[i] == init[i] && ps[j] == init[j];
        }
        if exists i, j :: 0 <= i < j < |ps| && ps[i].name == n && ps[j].name == n {
          var i, j :| 0 <= i < j < |ps| && ps[i].name == n && ps[j].name == n;
          assert init[i] == ps[i] && init[j] == ps[j];
        }
      }
    }
  }

  /** The duplicate flag is raised exactly when some name occurs twice, which
      is exactly when deduplication would change the list. */
  lemma HasDuplicatesIff(ps: seq<Participant>, counts: map<string, nat>)
    requires IsNameCountOf(counts, ps)
    ensures HasDuplicates(counts) <==> !NamesDistinct(ps)
    ensures HasDuplicates(counts) <==> Dedup(ps) != ps
  {
    if HasDuplicates(counts) {
      var n :| n in counts && counts[n] > 1;
      CountAtLeastTwo(ps, n);
    }
    if !NamesDistinct(ps) {
      var i, j :| 0 <= i < j < |ps| && ps[i].name == ps[j].name;
      var n := ps[i].name;
      CountAtLeastTwo(ps, n);
      InNames(ps, n);
      assert n in counts;
    }
    DedupUnchangedIff(ps);
  }

  /** The sum of `counts[k]` over the keys listed in `keys`. */
  function SumOver(counts: map<string, nat>, keys: seq<string>): nat
    requires forall k :: k in keys ==> k in counts
  {
    if keys == [] then 0 else counts[keys[0]] + SumOver(counts, keys[1..])
  }

  /** The sum of `Count(ps, k)` over the keys listed in `keys`. */
  function SumCount(ps: seq<Participant>, keys: seq<string>): nat
  {
    if keys == [] then 0 else Count(ps, keys[0]) + SumCount(ps, keys[1..])
  }

  /** How many times `x` is listed in `keys`. */
  function Hits(keys: seq<string>, x: string): nat
  {
    if keys == [] then 0 else (if keys[0] == x then 1 else 0) + Hits(keys[1..], x)
  }

  lemma {:induction false} HitsOnce(keys: seq<string>, x: string)
    requires forall i, j :: 0 <= i < j < |keys| ==> keys[i] != keys[j]
    ensures Hits(keys, x) == if x in keys then 1 else 0
  {
    if keys != [] {
      assert forall i, j :: 0 <= i < j < |keys[1..]| ==> keys[1..][i] != keys[1..][j] by {
        forall i, j | 0 <= i < j < |keys[1..]| ensures keys[1..][i] != keys[1..][j] {
          assert keys[1..][i] == keys[i + 1] && keys[1..][j] == keys[j + 1];
        }
      }
      HitsOnce(keys[1..], x);
      if keys[0] == x {
        assert x !in keys[1..] by {
          forall i | 0 <= i < |keys[1..]| ensures keys[1..][i] != x {
            assert keys[1..][i] == keys[i + 1];
          }
        }
      } else {
        assert x in keys <==> x in keys[1..] by {
          assert keys == [keys[0]] + keys[1..];
        }
      }
    }
  }

  lemma {:induction false} SumCountSnoc(ps: seq<Participant>, p: Participant, keys: seq<string>)
    ensures SumCount(ps + [p], keys) == SumCount(ps, keys) + Hits(keys, p.name)
  {
    if keys != [] {
      SumCountSnoc(ps, p, keys[1..]);
      assert (ps + [p])[..|ps + [p]| - 1] == ps;
    }
  }

  lemma {:induction false} SumCountLength(ps: seq<Participant>, keys: seq<string>)
    requires forall i, j :: 0 <= i < j < |keys| ==> keys[i] != keys[j]
    requires forall n :: n in Names(ps) ==> n in keys
    ensures SumCount(ps, keys) == |ps|
  {
    if ps == [] {
      SumCountEmpty(keys);
    } else {
      var last := |ps| - 1;
      var init := ps[..last];
      assert ps == init + [ps[last]];
      NamesAppend(init, [ps[last]]);
      assert [ps[last]][1..] == [];
      SumCountLength(init, keys);
      SumCountSnoc(init, ps[last], keys);
      HitsOnce(keys, ps[last].name);
    }
  }

  lemma {:induction false} SumCountEmpty(keys: seq<string>)
    ensures SumCount([], keys) == 0
  {
    if keys != [] {
      SumCountEmpty(keys[1..]);
    }
  }

  lemma {:induction false} SumOverCounts(ps: seq<Participant>, counts: map<string, nat>, keys: seq<string>)
    requires IsNameCountOf(counts, ps)
    requires forall k :: k in keys ==> k in counts
    ensures SumOver(counts, keys) == SumCount(ps, keys)
  {
    if keys != [] {
      SumOverCounts(ps, counts, keys[1..]);
    }
  }

  /** The counts add up to the length of the list, in whatever order the
      names are visited. */
  lemma CountsSumToLength(ps: seq<Participant>, counts: map<string, nat>, keys: seq<string>)
    requires IsNameCountOf(counts, ps)
    requires forall i, j :: 0 <= i < j < |keys| ==> keys[i] != keys[j]
    requires forall k :: k in keys <==> k in counts
    ensures SumOver(counts, keys) == |ps|
  {
    SumOverCounts(ps, counts, keys);
    SumCountLength(ps, keys);
  }

  // ---------------------------------------------------------------------
  // The tally on a plain JavaScript object, as written

  /** Property names a plain object literal `{}` inherits from
      `Object.prototype`. Reading such a key from the tally before it was
      assigned yields the inherited member, not `undefined`. */
  const InheritedKeys: set<string> :=
    {"constructor", "hasOwnProperty", "isPrototypeOf", "propertyIsEnumerable",
     "toLocaleString", "toString", "valueOf", "__defineGetter__",
     "__defineSetter__", "__lookupGetter__", "__lookupSetter__", "__proto__"}

  /** A value stored in the tally object: a number, or the string that `+ 1`
      makes of an inherited member (which never compares greater than 1). */
  datatype TallyValue = Num(n: nat) | Text

  /** The tally as the source computes it, on a plain object: an inherited
      member `m` becomes the string `m + 1`, and assigning a string to
      `__proto__` is ignored. */
  function TallyAsWritten(ps: seq<Participant>): map<string, TallyValue>
  {
    if ps == [] then map[]
    else
      var acc := TallyAsWritten(ps[..|ps| - 1]);
      var k := ps[|ps| - 1].name;
      var next :=
        if k in acc then (match acc[k] case Num(c) => Num(c + 1) case Text => Text)
        else if k in InheritedKeys then Text
        else Num(1);
      if k == "__proto__" then acc else acc[k := next]
  }

  /** `Object.values(tally).some(count => count > 1)` on the tally as written. */
  predicate HasDuplicatesAsWritten(tally: map<string, TallyValue>)
  {
    exists n :: n in tally && tally[n].Num? && tally[n].n > 1
  }

  lemma {:induction false} TallyAsWrittenShape(ps: seq<Participant>)
    ensures forall n :: n !in InheritedKeys ==> (n in TallyAsWritten(ps) <==> Count(ps, n) > 0)
    ensures forall n :: n !in InheritedKeys && n in TallyAsWritten(ps) ==>
              TallyAsWritten(ps)[n] == Num(Count(ps, n))
    ensures forall n :: n in InheritedKeys && n in TallyAsWritten(ps) ==> TallyAsWritten(ps)[n] == Text
  {
    if ps != [] {
      TallyAsWrittenShape(ps[..|ps| - 1]);
    }
  }

  /** On the plain object the flag is raised exactly when some name that is
      not an inherited property name occurs twice: duplicates of the other
      names go unnoticed. */
  lemma DuplicatesFlaggedAsWritten(ps: seq<Participant>)
    ensures HasDuplicatesAsWritten(TallyAsWritten(ps)) <==>
            exists i, j :: 0 <= i < j < |ps| && ps[i].name == ps[j].name && ps[i].name !in InheritedKeys
  {
    var tally := TallyAsWritten(ps);
    TallyAsWrittenShape(ps);
    if HasDuplicatesAsWritten(tally) {
      var n :| n in tally && tally[n].Num? && tally[n].n > 1;
      CountAtLeastTwo(ps, n);
    }
    if exists i, j :: 0 <= i < j < |ps| && ps[i].name == ps[j].name && ps[i].name !in InheritedKeys {
      var i, j :| 0 <= i < j < |ps| && ps[i].name == ps[j].name && ps[i].name !in InheritedKeys;
      var n := ps[i].name;
      CountAtLeastTwo(ps, n);
      assert n in tally && tally[n] == Num(Count(ps, n));
    }
  }

  /** Two participants named "constructor" are duplicates, yet the flag
      computed on the plain object stays down. */
  lemma PlainObjectMissesDuplicate()
    ensures var ps := [Participant("a", "constructor"), Participant("b", "constructor")];
            !NamesDistinct(ps) && !HasDuplicatesAsWritten(TallyAsWritten(ps))
  {
    var ps := [Participant("a", "constructor"), Participant("b", "constructor")];
    assert ps[..1] == [ps[0]];
    assert [ps[0]][..0] == [];
    assert TallyAsWritten([ps[0]]) == map["constructor" := Text];
    assert TallyAsWritten(ps) == map["constructor" := Text];
  }

  // ---------------------------------------------------------------------
  // Deduplication (components/InputSection.tsx:44-56)

  /** The participants of `ps`, in order, keeping only the first one of each
      name and skipping every name already in `seen`. */
  function DedupFrom(ps: seq<Participant>, seen: set<string>): seq<Participant>
  {
    if ps == [] then []
    else if ps[0].name in seen then DedupFrom(ps[1..], seen)
    else [ps[0]] + DedupFrom(ps[1..], seen + {ps[0].name})
  }

  /** The list with the first participant of each name kept, in order. */
  function Dedup(ps: seq<Participant>): seq<Participant>
  {
    DedupFrom(ps, {})
  }

  /** The one-click deduplication: one pass with a set of names seen so far. */
  method RemoveDuplicates(ps: seq<Participant>) returns (unique: seq<Participant>)
    ensures unique == Dedup(ps)
  {
    var seen: set<string> := {};
    unique := [];
    var i := 0;
    while i < |ps|
      invariant 0 <= i <= |ps|
      invariant unique + DedupFrom(ps[i..], seen) == Dedup(ps)
    {
      var p := ps[i];
      assert ps[i..][1..] == ps[i + 1..];
      if p.name !in seen {
        seen := seen + {p.name};
        unique := unique + [p];
      }
      i := i + 1;
    }
  }

  lemma {:induction false} DedupFromShorter(ps: seq<Participant>, seen: set<string>)
    ensures |DedupFrom(ps, seen)| <= |ps|
  {
    if ps != [] {
      DedupFromShorter(ps[1..], seen);
      DedupFromShorter(ps[1..], seen + {ps[0].name});
    }
  }

  lemma {:induction false} DedupFromNames(ps: seq<Participant>, seen: set<string>)
    ensures Names(DedupFrom(ps, seen)) == Names(ps) - seen
    ensures NamesDistinct(DedupFrom(ps, seen))
  {
    if ps != [] {
      var p := ps[0];
      if p.name in seen {
        DedupFromNames(ps[1..], seen);
      } else {
        var rest := DedupFrom(ps[1..], seen + {p.name});
        DedupFromNames(ps[1..], seen + {p.name});
        var r := [p] + rest;
        assert r[1..] == rest;
        forall j | 0 <= j < |rest| ensures rest[j].name != p.name {
          InNames(rest, rest[j].name);
        }
        forall i, j | 0 <= i < j < |r| ensures r[i].name != r[j].name {
          assert r[j] == rest[j - 1];
          if i > 0 {
            assert r[i] == rest[i - 1];
          }
        }
      }
    }
  }

  lemma {:induction false} DedupFromSubsequence(ps: seq<Participant>, seen: set<string>)
    ensures IsSubsequence(DedupFrom(ps, seen), ps)
  {
    if ps != [] {
      var p := ps[0];
      assert [p] + ps[1..] == ps;
      if p.name in seen {
        var rest := DedupFrom(ps[1..], seen);
        DedupFromSubsequence(ps[1..], seen);
        SubsequenceCons(rest, p, ps[1..]);
      } else {
        var rest := DedupFrom(ps[1..], seen + {p.name});
        DedupFromSubsequence(ps[1..], seen + {p.name});
        assert ([p] + rest)[1..] == rest;
      }
    }
  }

  lemma {:induction false} DedupFromFirst(ps: seq<Participant>, seen: set<string>)
    ensures forall k :: 0 <= k < |DedupFrom(ps, seen)| ==>
              FirstIndex(ps, DedupFrom(ps, seen)[k].name) < |ps| &&
              DedupFrom(ps, seen)[k] == ps[FirstIndex(ps, DedupFrom(ps, seen)[k].name)]
  {
    if ps != [] {
      var p := ps[0];
      var seen' := if p.name in seen then seen else seen + {p.name};
      var rest := DedupFrom(ps[1..], seen');
      DedupFromFirst(ps[1..], seen');
      DedupFromNames(ps[1..], seen');
      forall j | 0 <= j < |rest|
        ensures FirstIndex(ps, rest[j].name) < |ps| && rest[j] == ps[FirstIndex(ps, rest[j].name)]
      {
        InNames(rest, rest[j].name);
        assert rest[j].name != p.name;
        assert FirstIndex(ps, rest[j].name) == 1 + FirstIndex(ps[1..], rest[j].name);
      }
      if p.name !in seen {
        var r := [p] + rest;
        forall k | 0 <= k < |r| ensures FirstIndex(ps, r[k].name) < |ps| && r[k] == ps[FirstIndex(ps, r[k].name)] {
          if k > 0 {
            assert r[k] == rest[k - 1];
          }
        }
      }
    }
  }

  lemma {:induction false} DedupFromDistinct(ps: seq<Participant>, seen: set<string>)
    requires NamesDistinct(ps)
    requires forall i :: 0 <= i < |ps| ==> ps[i].name !in seen
    ensures DedupFrom(ps, seen) == ps
  {
    if ps != [] {
      var p := ps[0];
      forall i | 0 <= i < |ps[1..]| ensures ps[1..][i].name !in seen + {p.name} {
        assert ps[1..][i] == ps[i + 1];
      }
      assert NamesDistinct(ps[1..]) by {
        forall i, j | 0 <= i < j < |ps[1..]| ensures ps[1..][i].name != ps[1..][j].name {
          assert ps[1..][i] == ps[i + 1] && ps[1..][j] == ps[j + 1];
        }
      }
      DedupFromDistinct(ps[1..], seen + {p.name});
    }
  }

  /** Deduplication changes the list exactly when some name occurs twice. */
  lemma DedupUnchangedIff(ps: seq<Participant>)
    ensures Dedup(ps) == ps <==> NamesDistinct(ps)
  {
    DedupFromNames(ps, {});
    if NamesDistinct(ps) {
      DedupFromDistinct(ps, {});
    }
  }

  /** Applying deduplication to its own output changes nothing. */
  lemma DedupIdempotent(ps: seq<Participant>)
    ensures Dedup(Dedup(ps)) == Dedup(ps)
  {
    DedupFromNames(ps, {});
    DedupFromDistinct(Dedup(ps), {});
  }

  /** Deduplication keeps, in their original order, exactly the first
      participant of each name: no more, no fewer. */
  lemma DedupKeepsFirstOccurrences(ps: seq<Participant>)
    ensures |Dedup(ps)| <= |ps|
    ensures IsSubsequence(Dedup(ps), ps)
    ensures NamesDistinct(Dedup(ps))
    ensures Names(Dedup(ps)) == Names(ps)
    ensures forall k :: 0 <= k < |Dedup(ps)| ==>
              FirstIndex(ps, Dedup(ps)[k].name) < |ps| &&
              Dedup(ps)[k] == ps[FirstIndex(ps, Dedup(ps)[k].name)]
    ensures forall i :: 0 <= i < |ps| && FirstIndex(ps, ps[i].name) == i ==> ps[i] in Dedup(ps)
  {
    var r := Dedup(ps);
    DedupFromShorter(ps, {});
    DedupFromSubsequence(ps, {});
    DedupFromNames(ps, {});
    DedupFromFirst(ps, {});
    forall i | 0 <= i < |ps| && FirstIndex(ps, ps[i].name) == i ensures ps[i] in r {
      InNames(ps, ps[i].name);
      InNames(r, ps[i].name);
      var k :| 0 <= k < |r| && r[k].name == ps[i].name;
    }
  }

  // ---------------------------------------------------------------------
  // Trimming the pasted text (components/InputSection.tsx:33)

  /** The characters JavaScript's `trim` removes: the WhiteSpace and
      LineTerminator code points of ECMAScript (sections 12.2 and 12.3 of
      ECMA-262). */
  predicate IsJsWhitespace(c: char)
  {
    c == '\t' || c == '\U{000B}' || c == '\U{000C}' || c == ' ' || c == '\U{00A0}' ||
    c == '\U{FEFF}' || c == '\U{1680}' || ('\U{2000}' <= c <= '\U{200A}') ||
    c == '\U{202F}' || c == '\U{205F}' || c == '\U{3000}' ||
    c == '\n' || c == '\r' || c == '\U{2028}' || c == '\U{2029}'
  }

  /** Every character of `s` is whitespace (the empty text included). */
  predicate IsBlank(s: string)
  {
    forall i :: 0 <= i < |s| ==> IsJsWhitespace(s[i])
  }

  function TrimStart(s: string): string
  {
    if s != [] && IsJsWhitespace(s[0]) then TrimStart(s[1..]) else s
  }

  function TrimEnd(s: string): string
  {
    if s != [] && IsJsWhitespace(s[|s| - 1]) then TrimEnd(s[..|s| - 1]) else s
  }

  /** `s.trim()`: leading and trailing whitespace removed. */
  function Trim(s: string): string
  {
    TrimEnd(TrimStart(s))
  }

  lemma {:induction false} TrimStartBlank(s: string)
    ensures TrimStart(s) == [] <==> IsBlank(s)
    ensures TrimStart(s) == [] || !IsJsWhitespace(TrimStart(s)[0])
  {
    if s != [] && IsJsWhitespace(s[0]) {
      TrimStartBlank(s[1..]);
      assert IsBlank(s) <==> IsBlank(s[1..]) by {
        if IsBlank(s[1..]) {
          forall i | 0 <= i < |s| ensures IsJsWhitespace(s[i]) {
            if i > 0 {
              assert s[i] == s[1..][i - 1];
            }
          }
        }
      }
    }
  }

  lemma {:induction false} TrimEndBlank(s: string)
    ensures TrimEnd(s) == [] <==> IsBlank(s)
  {
    if s != [] && IsJsWhitespace(s[|s| - 1]) {
      TrimEndBlank(s[..|s| - 1]);
      assert IsBlank(s) <==> IsBlank(s[..|s| - 1]) by {
        if IsBlank(s[..|s| - 1]) {
          forall i | 0 <= i < |s| ensures IsJsWhitespace(s[i]) {
            if i < |s| - 1 {
              assert s[i] == s[..|s| - 1][i];
            }
          }
        }
      }
    }
  }

  /** The text trims to the empty string exactly when it is all whitespace. */
  lemma TrimEmptyIffBlank(s: string)
    ensures Trim(s) == [] <==> IsBlank(s)
  {
    TrimStartBlank(s);
    TrimEndBlank(TrimStart(s));
  }

  // ---------------------------------------------------------------------
  // The input tab's state

  /** The input tab: the shared participant list (owned by the application
      and replaced through its setter) and the text area's contents. */
  class InputSection {
    var participants: seq<Participant>
    var textInput: string

    constructor (ps: seq<Participant>)
      ensures participants == ps && textInput == ""
    {
      participants := ps;
      textInput := "";
    }

    /** Adding the pasted text. `parsed` stands for what the name parser
        returns for the current text; the parser is not part of this model.
        Text that trims to nothing is ignored; otherwise the parsed entries
        are appended after the existing list and the text area is emptied. */
    method HandleTextAdd(parsed: seq<Participant>)
      modifies this
      ensures Trim(old(textInput)) == [] ==>
                participants == old(participants) && textInput == old(textInput)
      ensures Trim(old(textInput)) != [] ==>
                participants == old(participants) + parsed && textInput == ""
    {
      if Trim(textInput) == [] {
        return;
      }
      participants := participants + parsed;
      textInput := "";
    }

    /** The one-click deduplication replaces the list by its deduplicated form. */
    method HandleRemoveDuplicates()
      modifies this
      ensures participants == Dedup(old(participants))
      ensures textInput == old(textInput)
    {
      participants := RemoveDuplicates(participants);
    }

    /** Clearing the list; `confirmed` is the user's answer to the
        confirmation dialog. Declining changes nothing. */
    method ClearAll(confirmed: bool)
      modifies this
      ensures confirmed ==> participants == [] && textInput == ""
      ensures !confirmed ==> participants == old(participants) && textInput == old(textInput)
    {
      if confirmed {
        participants := [];
        textInput := "";
      }
    }
  }
}
