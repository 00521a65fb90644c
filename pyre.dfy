/**
 * Python's `re.split('/+', s)`: `s` cut at every maximal run of one or more
 * slashes. The pieces and the runs between them put `s` back together, and
 * conversely a string assembled from slash-free pieces and slash runs splits
 * into exactly those pieces.
 */
module PyRe {

  /** The pieces of `s` between maximal runs of '/', leading and trailing empty pieces included. */
  function SplitSlashRuns(s: string): (pieces: seq<string>)
    ensures |pieces| >= 1
  {
    if s == [] then [""]
    else
      var prev := SplitSlashRuns(s[..|s| - 1]);
      var c := s[|s| - 1];
      if c != '/' then prev[..|prev| - 1] + [prev[|prev| - 1] + [c]]
      else if |s| >= 2 && s[|s| - 2] == '/' then prev
      else prev + [""]
  }

  /** What a split can produce: slash-free pieces, of which only the first and the last may be empty. */
  predicate WellFormedPieces(ps: seq<string>)
  {
    && |ps| >= 1
    && (forall k :: 0 <= k < |ps| ==> '/' !in ps[k])
    && (forall k :: 0 < k < |ps| - 1 ==> ps[k] != [])
  }

  /** A non-empty run of slashes. */
  predicate IsSlashRun(sep: string)
  {
    |sep| >= 1 && forall k :: 0 <= k < |sep| ==> sep[k] == '/'
  }

  /** `ps[0] + seps[0] + ps[1] + ... + seps[n-2] + ps[n-1]`. */
  function JoinRuns(ps: seq<string>, seps: seq<string>): string
    requires |ps| >= 1 && |seps| == |ps| - 1
  {
    if |ps| == 1 then ps[0]
    else JoinRuns(ps[..|ps| - 1], seps[..|seps| - 1]) + seps[|seps| - 1] + ps[|ps| - 1]
  }

  /** One step of the split, stated on `init + [c]`. */
  lemma SplitSnoc(init: string, c: char)
    ensures var prev := SplitSlashRuns(init);
            SplitSlashRuns(init + [c]) ==
              if c != '/' then prev[..|prev| - 1] + [prev[|prev| - 1] + [c]]
              else if init != [] && init[|init| - 1] == '/' then prev
              else prev + [""]
  {
    var s := init + [c];
    assert s[..|s| - 1] == init;
    assert |s| >= 2 ==> s[|s| - 2] == init[|init| - 1];
  }

  /** Extending the last piece by a character other than '/' keeps the pieces well formed. */
  lemma WellFormedExtendLast(ps: seq<string>, c: char)
    requires WellFormedPieces(ps) && c != '/'
    ensures var ps' := ps[..|ps| - 1] + [ps[|ps| - 1] + [c]];
            WellFormedPieces(ps') && ps'[|ps'| - 1] != [] && |ps'| == |ps|
  {
    var n := |ps|;
    var ps' := ps[..n - 1] + [ps[n - 1] + [c]];
    forall k | 0 <= k < n ensures '/' !in ps'[k] {
      if k == n - 1 {
        assert forall x :: x in ps'[k] ==> x in ps[n - 1] || x == c;
      } else {
        assert ps'[k] == ps[k];
      }
    }
    forall k | 0 < k < n - 1 ensures ps'[k] != [] {
      assert ps'[k] == ps[k];
    }
  }

  /** Opening an empty piece after a non-empty last piece (or after the single first one) keeps the pieces well formed. */
  lemma WellFormedAppendEmpty(ps: seq<string>)
    requires WellFormedPieces(ps) && (|ps| == 1 || ps[|ps| - 1] != [])
    ensures WellFormedPieces(ps + [""])
  {
    var ps' := ps + [""];
    forall k | 0 <= k < |ps'| ensures '/' !in ps'[k] {
      if k < |ps| {
        assert ps'[k] == ps[k];
      }
    }
    forall k | 0 < k < |ps'| - 1 ensures ps'[k] != [] {
      assert ps'[k] == ps[k];
    }
  }

  /** Every split is well formed; for non-empty `s`, it ends with an empty piece exactly when `s` ends with '/'. */
  lemma {:induction false} SplitWellFormed(s: string)
    ensures WellFormedPieces(SplitSlashRuns(s))
    ensures s != [] ==> (SplitSlashRuns(s)[|SplitSlashRuns(s)| - 1] == [] <==> s[|s| - 1] == '/')
    ensures s != [] && s[|s| - 1] == '/' ==> |SplitSlashRuns(s)| >= 2
  {
    if s != [] {
      var init, c := s[..|s| - 1], s[|s| - 1];
      assert s == init + [c];
      SplitWellFormed(init);
      SplitSnoc(init, c);
      var prev := SplitSlashRuns(init);
      if c != '/' {
        WellFormedExtendLast(prev, c);
      } else if init != [] && init[|init| - 1] == '/' {
      } else {
        WellFormedAppendEmpty(prev);
      }
    }
  }

  /** The slash runs of `s`, in order, as `re.split` consumes them. */
  function SlashRunsOf(s: string): (seps: seq<string>)
    ensures |seps| == |SplitSlashRuns(s)| - 1
    ensures forall k :: 0 <= k < |seps| ==> IsSlashRun(seps[k])
  {
    if s == [] then []
    else
      var prev := SlashRunsOf(s[..|s| - 1]);
      var c := s[|s| - 1];
      if c != '/' then prev
      else if |s| >= 2 && s[|s| - 2] == '/' then prev[..|prev| - 1] + [prev[|prev| - 1] + "/"]
      else prev + ["/"]
  }

  /** One step of the slash runs, stated on `init + [c]`. */
  lemma RunsSnoc(init: string, c: char)
    ensures var prev := SlashRunsOf(init);
            SlashRunsOf(init + [c]) ==
              if c != '/' then prev
              else if init != [] && init[|init| - 1] == '/' then prev[..|prev| - 1] + [prev[|prev| - 1] + "/"]
              else prev + ["/"]
  {
    var s := init + [c];
    assert s[..|s| - 1] == init;
    assert |s| >= 2 ==> s[|s| - 2] == init[|init| - 1];
  }

  /** One more slash-free character after text that extends the last piece by `p'` extends it by `p' + [c]`. */
  lemma SplitAppendTextStep(s: string, p': string, c: char)
    requires c != '/'
    requires var before := SplitSlashRuns(s);
             SplitSlashRuns(s + p') == before[..|before| - 1] + [before[|before| - 1] + p']
    ensures var before := SplitSlashRuns(s);
            SplitSlashRuns(s + p' + [c]) == before[..|before| - 1] + [before[|before| - 1] + p' + [c]]
  {
    var before := SplitSlashRuns(s);
    var mid := SplitSlashRuns(s + p');
    SplitSnoc(s + p', c);
    assert mid[..|mid| - 1] == before[..|before| - 1];
    assert mid[|mid| - 1] == before[|before| - 1] + p';
  }

  /** Appending slash-free text to `s` extends only the last piece. */
  lemma {:induction false} SplitAppendText(s: string, p: string)
    requires '/' !in p
    ensures var before := SplitSlashRuns(s);
            SplitSlashRuns(s + p) == before[..|before| - 1] + [before[|before| - 1] + p]
    decreases |p|
  {
    var before := SplitSlashRuns(s);
    var last := before[|before| - 1];
    if p == [] {
      assert s + p == s;
      assert last + p == last;
      assert before[..|before| - 1] + [last] == before;
    } else {
      var p', c := p[..|p| - 1], p[|p| - 1];
      assert p == p' + [c];
      assert c != '/' by { assert c in p; }
      assert '/' !in p' by { assert forall x :: x in p' ==> x in p; }
      SplitAppendText(s, p');
      SplitAppendTextStep(s, p', c);
      assert s + p == s + p' + [c];
      assert last + p == last + p' + [c];
    }
  }

  /** Appending a slash run to text that does not end in '/' opens one new, empty piece. */
  lemma {:induction false} SplitAppendRun(s: string, sep: string)
    requires IsSlashRun(sep)
    requires s == [] || s[|s| - 1] != '/'
    ensures SplitSlashRuns(s + sep) == SplitSlashRuns(s) + [""]
    decreases |sep|
  {
    if |sep| == 1 {
      assert s + sep == s + ['/'];
      SplitSnoc(s, '/');
    } else {
      var sep' := sep[..|sep| - 1];
      SplitAppendRun(s, sep');
      assert s + sep == (s + sep') + ['/'];
      var t := s + sep';
      assert t[|t| - 1] == '/';
      SplitSnoc(t, '/');
    }
  }

  /** A join ends with the last character of its last piece. */
  lemma JoinLastChar(ps: seq<string>, seps: seq<string>)
    requires |ps| >= 1 && |seps| == |ps| - 1 && ps[|ps| - 1] != []
    ensures var j := JoinRuns(ps, seps);
            j != [] && j[|j| - 1] == ps[|ps| - 1][|ps[|ps| - 1]| - 1]
  {
  }

  /** A slash run and then a slash-free piece after text that does not end in '/' add exactly that piece. */
  lemma SplitAppendRunText(j: string, sep: string, last: string)
    requires j == [] || j[|j| - 1] != '/'
    requires IsSlashRun(sep) && '/' !in last
    ensures SplitSlashRuns(j + sep + last) == SplitSlashRuns(j) + [last]
  {
    var init := SplitSlashRuns(j);
    SplitAppendRun(j, sep);
    SplitAppendText(j + sep, last);
    assert (init + [""])[..|init|] == init;
    assert "" + last == last;
  }

  /** Dropping the last piece and run of a well-formed join leaves a well-formed join. */
  lemma WellFormedInit(ps: seq<string>, seps: seq<string>)
    requires WellFormedPieces(ps) && |ps| >= 2
    requires |seps| == |ps| - 1 && forall k :: 0 <= k < |seps| ==> IsSlashRun(seps[k])
    ensures WellFormedPieces(ps[..|ps| - 1])
    ensures var seps' := seps[..|seps| - 1]; forall k :: 0 <= k < |seps'| ==> IsSlashRun(seps'[k])
  {
  }

  /** A join whose last piece is not empty, or is the only piece, does not end in '/'. */
  lemma JoinNoTrailingSlash(ps: seq<string>, seps: seq<string>)
    requires WellFormedPieces(ps) && |seps| == |ps| - 1
    requires |ps| == 1 || ps[|ps| - 1] != []
    ensures var j := JoinRuns(ps, seps); j == [] || j[|j| - 1] != '/'
  {
    if ps[|ps| - 1] != [] {
      JoinLastChar(ps, seps);
      var last := ps[|ps| - 1];
      assert last[|last| - 1] in last;
    }
  }

  /** Splitting a join of well-formed pieces by slash runs gives back the pieces. */
  lemma {:induction false} SplitOfJoin(ps: seq<string>, seps: seq<string>)
    requires WellFormedPieces(ps)
    requires |seps| == |ps| - 1 && forall k :: 0 <= k < |seps| ==> IsSlashRun(seps[k])
    ensures SplitSlashRuns(JoinRuns(ps, seps)) == ps
  {
    var n := |ps|;
    if n == 1 {
      SplitAppendText("", ps[0]);
      assert "" + ps[0] == ps[0];
    } else {
      var init, initSeps := ps[..n - 1], seps[..n - 2];
      var j := JoinRuns(init, initSeps);
      assert SplitSlashRuns(j) == init && (j == [] || j[|j| - 1] != '/') by {
        WellFormedInit(ps, seps);
        SplitOfJoin(init, initSeps);
        assert init[|init| - 1] == ps[n - 2];
        JoinNoTrailingSlash(init, initSeps);
      }
      assert SplitSlashRuns(j + seps[n - 2] + ps[n - 1]) == init + [ps[n - 1]] by {
        assert '/' !in ps[n - 1] && IsSlashRun(seps[n - 2]);
        SplitAppendRunText(j, seps[n - 2], ps[n - 1]);
      }
      assert JoinRuns(ps, seps) == j + seps[n - 2] + ps[n - 1];
      assert init + [ps[n - 1]] == ps;
    }
  }

  /** Replacing the last piece `p` by `p + q` extends the join by `q`. */
  lemma JoinExtendLast(ps: seq<string>, seps: seq<string>, q: string)
    requires |ps| >= 1 && |seps| == |ps| - 1
    ensures JoinRuns(ps[..|ps| - 1] + [ps[|ps| - 1] + q], seps) == JoinRuns(ps, seps) + q
  {
    var ps' := ps[..|ps| - 1] + [ps[|ps| - 1] + q];
    if |ps| > 1 {
      assert ps'[..|ps'| - 1] == ps[..|ps| - 1];
    }
  }

  /** A character other than '/' keeps the round trip: it lands on the last piece. */
  lemma JoinSnocText(init: string, c: char)
    requires c != '/'
    requires JoinRuns(SplitSlashRuns(init), SlashRunsOf(init)) == init
    ensures JoinRuns(SplitSlashRuns(init + [c]), SlashRunsOf(init + [c])) == init + [c]
  {
    var ps, seps := SplitSlashRuns(init), SlashRunsOf(init);
    SplitSnoc(init, c);
    RunsSnoc(init, c);
    JoinExtendLast(ps, seps, [c]);
  }

  /** A '/' after a '/' keeps the round trip: it lengthens the last run. */
  lemma JoinSnocSlashAgain(init: string)
    requires init != [] && init[|init| - 1] == '/'
    requires JoinRuns(SplitSlashRuns(init), SlashRunsOf(init)) == init
    ensures JoinRuns(SplitSlashRuns(init + "/"), SlashRunsOf(init + "/")) == init + "/"
  {
    var ps, seps := SplitSlashRuns(init), SlashRunsOf(init);
    SplitWellFormed(init);
    assert ps[|ps| - 1] == [] && |seps| >= 1;
    var m := |seps|;
    var seps' := seps[..m - 1] + [seps[m - 1] + "/"];
    assert SplitSlashRuns(init + "/") == ps && SlashRunsOf(init + "/") == seps' by {
      SplitSnoc(init, '/');
      RunsSnoc(init, '/');
    }
    var front := JoinRuns(ps[..|ps| - 1], seps[..m - 1]);
    assert JoinRuns(ps, seps') == front + (seps[m - 1] + "/") + [] by {
      assert seps'[..m - 1] == seps[..m - 1];
    }
    assert JoinRuns(ps, seps) == front + seps[m - 1] + [];
    Regroup(front, seps[m - 1], "/", []);
  }

  /**
   * Moving `b` out of the middle of an append whose tail `e` is the empty last
   * piece of a join. `e` is kept as a term rather than written `[]` so that
   * the fact matches the shape `JoinRuns` unfolds to.
   */
  lemma Regroup<T>(x: seq<T>, a: seq<T>, b: seq<T>, e: seq<T>)
    requires e == []
    ensures x + (a + b) + e == (x + a + e) + b
  {
  }

  /** A '/' after anything but '/' opens a new, empty piece and a new run. */
  lemma SplitSnocSlashNew(init: string)
    requires init == [] || init[|init| - 1] != '/'
    ensures SplitSlashRuns(init + "/") == SplitSlashRuns(init) + [""]
    ensures SlashRunsOf(init + "/") == SlashRunsOf(init) + ["/"]
  {
    SplitSnoc(init, '/');
    RunsSnoc(init, '/');
  }

  /** Joining one more, empty piece after one more single-slash run appends a slash. */
  lemma JoinAppendEmpty(ps: seq<string>, seps: seq<string>)
    requires |ps| >= 1 && |seps| == |ps| - 1
    ensures JoinRuns(ps + [""], seps + ["/"]) == JoinRuns(ps, seps) + "/"
  {
    var ps', seps' := ps + [""], seps + ["/"];
    assert ps'[..|ps'| - 1] == ps && seps'[..|seps'| - 1] == seps;
    assert JoinRuns(ps', seps') == JoinRuns(ps, seps) + "/" + "";
  }

  /** A '/' after anything else keeps the round trip: it opens a new run and a new, empty piece. */
  lemma JoinSnocSlashNew(init: string)
    requires init == [] || init[|init| - 1] != '/'
    requires JoinRuns(SplitSlashRuns(init), SlashRunsOf(init)) == init
    ensures JoinRuns(SplitSlashRuns(init + "/"), SlashRunsOf(init + "/")) == init + "/"
  {
    SplitSnocSlashNew(init);
    JoinAppendEmpty(SplitSlashRuns(init), SlashRunsOf(init));
  }

  /** Every string is the join of its pieces by its slash runs. */
  lemma {:induction false} JoinOfSplit(s: string)
    ensures JoinRuns(SplitSlashRuns(s), SlashRunsOf(s)) == s
  {
    if s != [] {
      var init, c := s[..|s| - 1], s[|s| - 1];
      assert s == init + [c];
      JoinOfSplit(init);
      if c != '/' {
        JoinSnocText(init, c);
      } else if |init| >= 1 && init[|init| - 1] == '/' {
        JoinSnocSlashAgain(init);
      } else {
        JoinSnocSlashNew(init);
      }
    }
  }
}
