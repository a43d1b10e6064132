/**
  Header-name canonicalisation of ouroboros/network/asynchttp.py (`canonicalHeaderKey`).

  The source splits the key on `-`, upper-cases the first character of each
  segment, lower-cases the rest, and joins the segments with `-` again. Taking
  the first character of an empty segment raises `IndexError`; the model
  returns `None` in that case.
*/
module HeaderKey {
  import opened Wrappers

  /** ASCII upper-casing; every other character is left as it is. */
  function Upper(c: char): char
  {
    if 'a' <= c <= 'z' then (c as int - 32) as char else c
  }

  /** ASCII lower-casing; every other character is left as it is. */
  function Lower(c: char): char
  {
    if 'A' <= c <= 'Z' then (c as int + 32) as char else c
  }

  function LowerAll(s: string): (r: string)
    ensures |r| == |s|
    ensures forall i :: 0 <= i < |s| ==> r[i] == Lower(s[i])
  {
    if s == [] then [] else [Lower(s[0])] + LowerAll(s[1..])
  }

  /** `s.split('-')`: never empty, and no segment holds a `-`. */
  function Split(s: string): (parts: seq<string>)
    ensures |parts| >= 1
    ensures forall i :: 0 <= i < |parts| ==> '-' !in parts[i]
  {
    if s == [] then [[]]
    else if s[0] == '-' then [[]] + Split(s[1..])
    else
      var rest := Split(s[1..]);
      [[s[0]] + rest[0]] + rest[1..]
  }

  /** `'-'.join(parts)`; splitting the join of dash-free segments gives the segments back. */
  function Join(parts: seq<string>): (s: string)
    ensures |parts| >= 1 && (forall i :: 0 <= i < |parts| ==> '-' !in parts[i]) ==> Split(s) == parts
  {
    if parts == [] then []
    else if |parts| == 1 then
      SplitDashFree(parts[0]);
      parts[0]
    else
      var rest := Join(parts[1..]);
      SplitPrefix(parts[0], rest);
      assert parts == [parts[0]] + parts[1..];
      parts[0] + "-" + rest
  }

  predicate HasEmpty(parts: seq<string>)
  {
    exists i :: 0 <= i < |parts| && parts[i] == []
  }

  /** `s[0].upper() + s[1:].lower()` for one non-empty segment. */
  function CanonicalSegment(s: string): (r: string)
    requires s != []
    ensures |r| == |s| && r[0] == Upper(s[0])
    ensures forall i :: 1 <= i < |s| ==> r[i] == Lower(s[i])
  {
    [Upper(s[0])] + LowerAll(s[1..])
  }

  function CanonicalSegments(parts: seq<string>): (r: seq<string>)
    requires !HasEmpty(parts)
    ensures |r| == |parts|
    ensures forall i :: 0 <= i < |parts| ==> r[i] == CanonicalSegment(parts[i])
  {
    if parts == [] then []
    else
      assert forall i :: 1 <= i < |parts| ==> parts[1..][i - 1] == parts[i];
      [CanonicalSegment(parts[0])] + CanonicalSegments(parts[1..])
  }

  /**
    `canonicalHeaderKey(key)`; `None` stands for the `IndexError` raised on an
    empty segment. It fails exactly on the faulty keys, and everywhere else it
    agrees with the character-wise `Title` defined below.
  */
  function CanonicalHeaderKey(key: string): (r: Option<string>)
    ensures r.None? <==> DashFault(key)
    ensures r.Some? ==> r.value == Title(key, true)
  {
    var parts := Split(key);
    EmptySegmentIffDashFault(key);
    if HasEmpty(parts) then None
    else
      JoinTitle(parts);
      JoinSplit(key);
      Some(Join(CanonicalSegments(parts)))
  }

  // ---------------------------------------------------------------------
  // An independent, character-by-character reference definition.
  // ---------------------------------------------------------------------

  /** What title-casing puts at position `i` of `s`; `first` says whether `s[0]` starts a segment. */
  function CaseAt(s: string, i: nat, first: bool): char
    requires i < |s|
  {
    if s[i] == '-' then '-'
    else if (if i == 0 then first else s[i - 1] == '-') then Upper(s[i])
    else Lower(s[i])
  }

  /** Title-cases `s` one character at a time: every `-` stays, the character after a `-` is upper-cased, every other one lower-cased. */
  function Title(s: string, first: bool): (r: string)
    ensures |r| == |s|
    ensures forall i :: 0 <= i < |s| ==> r[i] == CaseAt(s, i, first)
  {
    if s == [] then []
    else
      var r := [CaseAt(s, 0, first)] + Title(s[1..], s[0] == '-');
      assert forall i :: 1 <= i < |s| ==> r[i] == CaseAt(s[1..], i - 1, s[0] == '-') == CaseAt(s, i, first);
      r
  }

  /** The keys on which the source raises: empty, a leading or trailing `-`, or two `-` in a row. */
  predicate DashFault(s: string)
  {
    || s == []
    || s[0] == '-'
    || s[|s| - 1] == '-'
    || exists i :: 0 <= i < |s| - 1 && s[i] == '-' && s[i + 1] == '-'
  }

  // ---------------------------------------------------------------------
  // Lemmas
  // ---------------------------------------------------------------------

  /** Joining the segments of a split gives back the key. */
  lemma {:induction false} JoinSplit(s: string)
    ensures Join(Split(s)) == s
  {
    if s == [] {
    } else if s[0] == '-' {
      JoinSplit(s[1..]);
      JoinCons([], Split(s[1..]));
      assert s == "-" + s[1..];
    } else {
      JoinSplit(s[1..]);
      JoinExtendHead(s[0], Split(s[1..]));
      assert s == [s[0]] + s[1..];
    }
  }

  /** Joining behind a new first segment puts a `-` between. */
  lemma JoinCons(x: string, parts: seq<string>)
    requires parts != []
    ensures Join([x] + parts) == x + "-" + Join(parts)
  {
    assert ([x] + parts)[1..] == parts;
  }

  /** Prefixing the first segment with `c` prefixes the join with `c`. */
  lemma JoinExtendHead(c: char, parts: seq<string>)
    requires parts != []
    ensures Join([[c] + parts[0]] + parts[1..]) == [c] + Join(parts)
  {
    var q := [[c] + parts[0]] + parts[1..];
    if |parts| > 1 {
      assert q[1..] == parts[1..];
    }
  }

  lemma {:induction false} SplitDashFree(x: string)
    ensures '-' !in x ==> Split(x) == [x]
  {
    if x != [] && '-' !in x {
      SplitDashFree(x[1..]);
      assert x == [x[0]] + x[1..];
    }
  }

  lemma {:induction false} SplitPrefix(x: string, y: string)
    ensures '-' !in x ==> Split(x + "-" + y) == [x] + Split(y)
  {
    if '-' in x {
    } else if x == [] {
      assert x + "-" + y == "-" + y;
      assert ("-" + y)[1..] == y;
    } else {
      SplitPrefix(x[1..], y);
      assert (x + "-" + y)[1..] == x[1..] + "-" + y;
      assert [x[0]] + x[1..] == x;
    }
  }

  /** The first segment is empty exactly when the key is empty or starts with `-`. */
  lemma SplitHeadEmpty(s: string)
    ensures Split(s)[0] == [] <==> (s == [] || s[0] == '-')
  {
  }

  /** The source fails on a key exactly when the key has an empty, leading or trailing `-` segment. */
  lemma {:induction false} EmptySegmentIffDashFault(s: string)
    ensures HasEmpty(Split(s)) <==> DashFault(s)
  {
    if s == [] || s[0] == '-' {
      assert Split(s)[0] == [];
    } else {
      var t := s[1..];
      var rest := Split(t);
      var parts := Split(s);
      assert parts == [[s[0]] + rest[0]] + rest[1..];
      assert HasEmpty(parts) <==> exists j :: 1 <= j < |rest| && rest[j] == [] by {
        if HasEmpty(parts) {
          var i :| 0 <= i < |parts| && parts[i] == [];
          assert i >= 1 && rest[i] == [];
        }
        if exists j :: 1 <= j < |rest| && rest[j] == [] {
          var j :| 1 <= j < |rest| && rest[j] == [];
          assert parts[j] == [];
        }
      }
      if t == [] {
        assert !DashFault(s) by {
          assert |s| == 1;
        }
      } else if t[0] == '-' {
        var u := t[1..];
        assert rest == [[]] + Split(u);
        EmptySegmentIffDashFault(u);
        assert HasEmpty(parts) <==> HasEmpty(Split(u)) by {
          if HasEmpty(Split(u)) {
            var j :| 0 <= j < |Split(u)| && Split(u)[j] == [];
            assert rest[j + 1] == [];
          }
        }
        assert s == [s[0], '-'] + u;
        DashFaultCons2(s[0], u);
      } else {
        EmptySegmentIffDashFault(t);
        SplitHeadEmpty(t);
        assert HasEmpty(rest) <==> exists j :: 1 <= j < |rest| && rest[j] == [];
        DashFaultCons(s[0], t);
        assert s == [s[0]] + t;
      }
    }
  }

  /** A key `c-u` (with `c` not a dash) is faulty exactly when `u` is. */
  lemma DashFaultCons2(c: char, u: string)
    requires c != '-'
    ensures DashFault([c, '-'] + u) <==> DashFault(u)
  {
    var s := [c, '-'] + u;
    if u != [] {
      assert s[|s| - 1] == u[|u| - 1];
      assert s[1] == '-' && s[2] == u[0];
      if DashFault(u) && u[0] != '-' && u[|u| - 1] != '-' {
        var i :| 0 <= i < |u| - 1 && u[i] == '-' && u[i + 1] == '-';
        assert s[i + 2] == '-' && s[i + 3] == '-';
      }
      if DashFault(s) && s[|s| - 1] != '-' && u[0] != '-' {
        var i :| 0 <= i < |s| - 1 && s[i] == '-' && s[i + 1] == '-';
        assert i >= 2 && u[i - 2] == '-' && u[i - 1] == '-';
      }
    }
  }

  /** A key `ct` (with neither `c` nor `t[0]` a dash) is faulty exactly when `t` is. */
  lemma DashFaultCons(c: char, t: string)
    requires c != '-' && t != [] && t[0] != '-'
    ensures DashFault([c] + t) <==> DashFault(t)
  {
    var s := [c] + t;
    if DashFault(t) && t[|t| - 1] != '-' {
      var i :| 0 <= i < |t| - 1 && t[i] == '-' && t[i + 1] == '-';
      assert s[i + 1] == '-' && s[i + 2] == '-';
    }
    if DashFault(s) && s[|s| - 1] != '-' {
      var i :| 0 <= i < |s| - 1 && s[i] == '-' && s[i + 1] == '-';
      assert i >= 1 && t[i - 1] == '-' && t[i] == '-';
    }
  }

  lemma {:induction false} TitleAppend(x: string, y: string, first: bool)
    ensures Title(x + y, first) == Title(x, first) + Title(y, if x == [] then first else x[|x| - 1] == '-')
  {
    if x != [] {
      TitleAppend(x[1..], y, x[0] == '-');
      assert (x + y)[1..] == x[1..] + y;
    }
  }

  lemma {:induction false} TitleLowers(y: string)
    requires '-' !in y
    ensures Title(y, false) == LowerAll(y)
  {
  }

  /** On one segment, title-casing is what the source does to a segment. */
  lemma SegmentTitle(p: string)
    requires p != [] && '-' !in p
    ensures Title(p, true) == CanonicalSegment(p)
  {
    TitleAppend([p[0]], p[1..], true);
    assert p == [p[0]] + p[1..];
    TitleLowers(p[1..]);
  }

  /** Title-casing `p-rest` title-cases `p` and `rest` separately. */
  lemma TitleAtDash(p: string, rest: string)
    requires p != [] && '-' !in p
    ensures Title(p + "-" + rest, true) == Title(p, true) + "-" + Title(rest, true)
  {
    TitleAppend(p, "-" + rest, true);
    assert p + "-" + rest == p + ("-" + rest);
    assert ("-" + rest)[1..] == rest;
    assert Title("-" + rest, false) == "-" + Title(rest, true);
  }

  lemma {:induction false} JoinTitle(parts: seq<string>)
    requires |parts| >= 1 && !HasEmpty(parts)
    requires forall i :: 0 <= i < |parts| ==> '-' !in parts[i]
    ensures Join(CanonicalSegments(parts)) == Title(Join(parts), true)
  {
    var p := parts[0];
    assert p != [];
    SegmentTitle(p);
    if |parts| > 1 {
      var more := parts[1..];
      assert forall i :: 0 <= i < |more| ==> more[i] == parts[i + 1];
      JoinTitle(more);
      TitleAtDash(p, Join(more));
      assert CanonicalSegments(parts)[1..] == CanonicalSegments(more);
    }
  }

  /**
    Where it succeeds, `canonicalHeaderKey` keeps the length and every `-`,
    upper-cases the first character of each segment and lower-cases the rest.
  */
  lemma CanonicalCharacterwise(key: string, r: string)
    requires CanonicalHeaderKey(key) == Some(r)
    ensures |r| == |key|
    ensures forall i :: 0 <= i < |key| ==> (r[i] == '-' <==> key[i] == '-')
    ensures forall i :: 0 <= i < |key| && key[i] != '-' && (i == 0 || key[i - 1] == '-') ==> r[i] == Upper(key[i])
    ensures forall i :: 0 <= i < |key| && key[i] != '-' && i > 0 && key[i - 1] != '-' ==> r[i] == Lower(key[i])
  {
  }

  /** Title-casing keeps exactly the faults of its input. */
  lemma TitleKeepsDashFault(s: string)
    ensures DashFault(Title(s, true)) == DashFault(s)
  {
    var r := Title(s, true);
    if r != [] {
      assert r[0] == '-' <==> s[0] == '-';
      assert r[|r| - 1] == '-' <==> s[|s| - 1] == '-';
    }
    if DashFault(r) && r != [] && r[0] != '-' && r[|r| - 1] != '-' {
      var i :| 0 <= i < |r| - 1 && r[i] == '-' && r[i + 1] == '-';
      assert s[i] == '-' && s[i + 1] == '-';
    }
    if DashFault(s) && s != [] && s[0] != '-' && s[|s| - 1] != '-' {
      var i :| 0 <= i < |s| - 1 && s[i] == '-' && s[i + 1] == '-';
      assert r[i] == '-' && r[i + 1] == '-';
    }
  }

  /** Title-casing twice is title-casing once. */
  lemma TitleIdempotent(s: string)
    ensures Title(Title(s, true), true) == Title(s, true)
  {
    var r := Title(s, true);
    assert forall i :: 0 <= i < |s| ==> CaseAt(r, i, true) == r[i];
  }

  /** Canonicalising a canonical key changes nothing. */
  lemma CanonicalIdempotent(key: string, r: string)
    requires CanonicalHeaderKey(key) == Some(r)
    ensures CanonicalHeaderKey(r) == Some(r)
  {
    TitleKeepsDashFault(key);
    TitleIdempotent(key);
  }
}
