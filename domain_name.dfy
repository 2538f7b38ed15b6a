/**
 * `isValidDomain`: the domain-name test applied before a domain is stored.
 *
 * The source tests a regular expression of the shape `^L(\.L)*$`, where a
 * label `L` is an ASCII letter or digit, then 0 to 61 letters, digits or
 * hyphens, then a letter or digit, and also asks for at most 253 characters.
 * The expression is modelled by the scanner `Run`/`Step` below (the
 * automaton the expression denotes); the grammar it stands for is stated
 * independently through `SplitDots` and `IsValidLabel`, and `ScanMatchesLabels`
 * proves the two agree on every string.
 */
module DomainName {

  predicate IsAlnum(c: char)
  {
    ('a' <= c <= 'z') || ('A' <= c <= 'Z') || ('0' <= c <= '9')
  }

  predicate IsLabelChar(c: char)
  {
    IsAlnum(c) || c == '-'
  }

  const MaxLabelLength := 63
  const MaxDomainLength := 253

  /** One label of a valid domain: 2 to 63 letters, digits and hyphens that
      start and end with a letter or digit. */
  predicate IsValidLabel(l: string)
  {
    && 2 <= |l| <= MaxLabelLength
    && IsAlnum(l[0]) && IsAlnum(l[|l| - 1])
    && forall k :: 0 <= k < |l| ==> IsLabelChar(l[k])
  }

  predicate AllLabelsValid(ls: seq<string>)
  {
    forall k :: 0 <= k < |ls| ==> IsValidLabel(ls[k])
  }

  /** The pieces of `s` between dots, as `s.split('.')` gives them: never
      empty, no piece holds a dot, and joining them back gives `s`. */
  function SplitDots(s: string): (ls: seq<string>)
    ensures |ls| >= 1
    ensures forall k :: 0 <= k < |ls| ==> '.' !in ls[k]
    ensures JoinDots(ls) == s
  {
    if s == [] then [[]]
    else
      var rest := SplitDots(s[1..]);
      if s[0] == '.' then [[]] + rest
      else [[s[0]] + rest[0]] + rest[1..]
  }

  /** `ls.join('.')`. */
  function JoinDots(ls: seq<string>): string
  {
    if ls == [] then []
    else if |ls| == 1 then ls[0]
    else ls[0] + "." + JoinDots(ls[1..])
  }

  /** Splitting undoes joining for dot-free pieces: a string is one or more
      labels joined by dots in exactly one way. */
  lemma {:induction false} SplitJoin(ls: seq<string>)
    requires |ls| >= 1
    requires forall k :: 0 <= k < |ls| ==> '.' !in ls[k]
    ensures SplitDots(JoinDots(ls)) == ls
  {
    if |ls| == 1 {
      SplitNoDot(ls[0]);
    } else {
      SplitJoin(ls[1..]);
      SplitPrefix(ls[0], JoinDots(ls[1..]));
      assert ls == [ls[0]] + ls[1..];
    }
  }

  lemma {:induction false} SplitNoDot(l: string)
    requires '.' !in l
    ensures SplitDots(l) == [l]
  {
    if l != [] {
      SplitNoDot(l[1..]);
      assert [l[0]] + l[1..] == l;
    }
  }

  /** A dot-free piece followed by a dot is the first piece of the split. */
  lemma {:induction false} SplitPrefix(l: string, t: string)
    requires '.' !in l
    ensures SplitDots(l + "." + t) == [l] + SplitDots(t)
  {
    if l == [] {
      assert l + "." + t == ['.'] + t;
      assert (['.'] + t)[1..] == t;
    } else {
      SplitPrefix(l[1..], t);
      var s := l + "." + t;
      assert s[0] == l[0] && s[1..] == l[1..] + "." + t;
      assert [l[0]] + l[1..] == l;
    }
  }

  // ---------------------------------------------------------------------
  // The regular expression, as a scanner
  // ---------------------------------------------------------------------

  /** Where the scanner stands: failed, at the start of a label, or inside a
      label of `length` characters whose last one is alphanumeric or not. */
  datatype ScanState = Fail | Start | InLabel(length: nat, endsAlnum: bool)

  /** One character of the pattern: a label starts with an alphanumeric,
      continues with label characters up to 63 in all, and a dot closes it
      only when it is at least two long and ends alphanumeric. */
  function Step(st: ScanState, c: char): (r: ScanState)
    ensures r != Fail ==> st != Fail && (c == '.' || IsLabelChar(c))
    ensures c == '.' ==> (r != Fail <==> Accepting(st))
    ensures r.InLabel? ==> r.length <= MaxLabelLength && r.endsAlnum == IsAlnum(c)
  {
    match st
    case Fail => Fail
    case Start => if IsAlnum(c) then InLabel(1, true) else Fail
    case InLabel(n, e) =>
      if c == '.' then (if n >= 2 && e then Start else Fail)
      else if IsLabelChar(c) && n < MaxLabelLength then InLabel(n + 1, IsAlnum(c))
      else Fail
  }

  /** The scanner over a whole string: once failed it stays failed, and it
      survives only strings made of letters, digits, hyphens and dots. */
  function Run(s: string, st: ScanState): (r: ScanState)
    ensures st == Fail ==> r == Fail
    ensures r != Fail ==> forall k :: 0 <= k < |s| ==> s[k] == '.' || IsLabelChar(s[k])
  {
    if s == [] then st else Run(s[1..], Step(st, s[0]))
  }

  predicate Accepting(st: ScanState)
  {
    st.InLabel? && st.length >= 2 && st.endsAlnum
  }

  /** `p` is a label read so far, as the scanner remembers it in `st`. */
  ghost predicate Summarizes(st: ScanState, p: string)
  {
    match st
    case Fail => false
    case Start => p == []
    case InLabel(n, e) =>
      && p != [] && n == |p| <= MaxLabelLength
      && IsAlnum(p[0]) && e == IsAlnum(p[|p| - 1])
      && forall k :: 0 <= k < |p| ==> IsLabelChar(p[k])
  }

  /** The scanner, having read the partial label `p`, accepts the rest `s`
      exactly when `p` completed by `s`'s first piece and all of `s`'s later
      pieces are valid labels. */
  lemma {:induction false} RunFrom(s: string, st: ScanState, p: string)
    requires Summarizes(st, p)
    ensures Accepting(Run(s, st)) <==>
            AllLabelsValid([p + SplitDots(s)[0]] + SplitDots(s)[1..])
  {
    var ls := SplitDots(s);
    if s == [] {
      assert p + ls[0] == p;
      assert [p + ls[0]] + ls[1..] == [p];
    } else {
      var c, t := s[0], s[1..];
      var rest := SplitDots(t);
      var next := Step(st, c);
      if c == '.' {
        assert ls == [[]] + rest;
        if next == Start {
          RunFrom(t, Start, []);
          assert [] + rest[0] == rest[0];
          assert [[] + rest[0]] + rest[1..] == rest;
          assert p + ls[0] == p;
          assert [p + ls[0]] + ls[1..] == [p] + rest;
          assert IsValidLabel(p);
          AllLabelsValidCons(p, rest);
        } else {
          assert next == Fail;
          RunIsStuck(t);
          assert ([p + ls[0]] + ls[1..])[0] == p;
        }
      } else {
        assert ls == [[c] + rest[0]] + rest[1..];
        assert p + ls[0] == (p + [c]) + rest[0];
        if next != Fail {
          RunFrom(t, next, p + [c]);
        } else {
          RunIsStuck(t);
          var first := (p + [c]) + rest[0];
          assert ([p + ls[0]] + ls[1..])[0] == first;
          assert first[|p|] == c;
          assert p != [] ==> first[0] == p[0];
          assert !IsValidLabel(first);
        }
      }
    }
  }

  lemma AllLabelsValidCons(l: string, ls: seq<string>)
    ensures AllLabelsValid([l] + ls) <==> IsValidLabel(l) && AllLabelsValid(ls)
  {
    if IsValidLabel(l) && AllLabelsValid(ls) {
      forall k | 0 <= k < |[l] + ls| ensures IsValidLabel(([l] + ls)[k]) {
        if k > 0 { assert ([l] + ls)[k] == ls[k - 1]; }
      }
    }
    if AllLabelsValid([l] + ls) {
      assert ([l] + ls)[0] == l;
      forall k | 0 <= k < |ls| ensures IsValidLabel(ls[k]) {
        assert ([l] + ls)[k + 1] == ls[k];
      }
    }
  }

  lemma {:induction false} RunIsStuck(s: string)
    ensures Run(s, Fail) == Fail
  {
    if s != [] {
      RunIsStuck(s[1..]);
    }
  }

  /** The scanner from the start state accepts exactly the strings whose
      dot-separated pieces are all valid labels. */
  lemma ScanMatchesLabels(d: string)
    ensures Accepting(Run(d, Start)) <==> AllLabelsValid(SplitDots(d))
  {
    RunFrom(d, Start, []);
    var ls := SplitDots(d);
    assert [] + ls[0] == ls[0];
    assert [[] + ls[0]] + ls[1..] == ls;
  }

  /** `isValidDomain(domain)`: true exactly when the domain is at most 253
      characters and every dot-separated piece is a label of 2 to 63
      letters, digits and hyphens that starts and ends with a letter or
      digit. */
  function IsValidDomain(d: string): (r: bool)
    ensures r <==> |d| <= MaxDomainLength && AllLabelsValid(SplitDots(d))
  {
    ScanMatchesLabels(d);
    Accepting(Run(d, Start)) && |d| <= MaxDomainLength
  }

  /** A valid domain is one or more labels joined by dots, each 2 to 63
      characters long. */
  lemma ValidDomainLabels(d: string)
    requires IsValidDomain(d)
    ensures d != [] && JoinDots(SplitDots(d)) == d
    ensures forall k :: 0 <= k < |SplitDots(d)| ==> 2 <= |SplitDots(d)[k]| <= 63
  {
    assert IsValidLabel(SplitDots(d)[0]);
  }

  /** Conversely, any one or more valid labels whose join is short enough
      form a valid domain. */
  lemma LabelsFormValidDomain(ls: seq<string>)
    requires |ls| >= 1 && AllLabelsValid(ls)
    requires |JoinDots(ls)| <= MaxDomainLength
    ensures IsValidDomain(JoinDots(ls))
  {
    forall k | 0 <= k < |ls| ensures '.' !in ls[k] {
      assert IsValidLabel(ls[k]);
    }
    SplitJoin(ls);
  }

  /** A one-character label is refused: `a.com` is not a valid domain. */
  lemma SingleCharacterLabelRejected()
    ensures !IsValidDomain("a.com")
  {
    assert SplitDots("a.com")[0] == "a";
  }

  lemma ExampleDomainAccepted()
    ensures IsValidDomain("example.com")
  {
    assert JoinDots(["example", "com"]) == "example.com";
    LabelsFormValidDomain(["example", "com"]);
  }

  lemma HyphenEndedLabelRejected()
    ensures !IsValidDomain("-bad-.com")
  {
    var d := "-bad-.com";
    assert Step(Start, d[0]) == Fail;
    assert Run(d, Start) == Run(d[1..], Fail);
  }
}
