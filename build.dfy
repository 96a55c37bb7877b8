/** Framework-version selection of the build script (build.rs, `get_versions`):
    the names of the runtime directories installed under `host/fxr` are sorted,
    one is chosen according to the configured `Version`, and the matching
    `netN.0` target moniker is derived from it. */
module Build {
  import opened Outcomes
  import opened Text
  import opened Config

  /** The two strings `get_versions` returns: the exact runtime version and
      the target framework moniker. */
  datatype Resolved = Resolved(framework: string, net: string)

  predicate Sorted(s: seq<string>) {
    forall i, j :: 0 <= i < j < |s| ==> LexLe(s[i], s[j])
  }

  function Insert(x: string, s: seq<string>): (r: seq<string>)
    requires Sorted(s)
    ensures Sorted(r)
    ensures multiset(r) == multiset(s) + multiset{x}
  {
    if s == [] then [x]
    else if LexLe(x, s[0]) then
      assert forall j :: 0 <= j < |s| ==> LexLe(x, s[j]) by {
        forall j | 0 <= j < |s| ensures LexLe(x, s[j]) {
          if j > 0 { LexLeTransitive(x, s[0], s[j]); }
        }
      }
      [x] + s
    else
      LexLeTotal(x, s[0]);
      var tail := Insert(x, s[1..]);
      assert s == [s[0]] + s[1..];
      assert forall y :: y in tail ==> LexLe(s[0], y) by {
        forall y | y in tail ensures LexLe(s[0], y) {
          assert y in multiset(tail);
          if y != x {
            assert y in s[1..];
          }
        }
      }
      [s[0]] + tail
  }

  /** `slice::sort` on the directory names: a sorted permutation of them. */
  function Sort(s: seq<string>): (r: seq<string>)
    ensures Sorted(r)
    ensures multiset(r) == multiset(s)
  {
    if s == [] then []
    else
      assert s == [s[0]] + s[1..];
      Insert(s[0], Sort(s[1..]))
  }

  /** `filter(|v| v.starts_with(prefix))`, in order. */
  function Matching(s: seq<string>, prefix: string): (r: seq<string>)
    ensures forall x :: x in r <==> x in s && StartsWith(x, prefix)
    ensures Sorted(s) ==> Sorted(r)
  {
    if s == [] then []
    else if StartsWith(s[0], prefix) then
      var tail := Matching(s[1..], prefix);
      assert Sorted(s) ==> forall y :: y in tail ==> LexLe(s[0], y) by {
        if Sorted(s) {
          forall y | y in tail ensures LexLe(s[0], y) {
            var j :| 1 <= j < |s| && s[j] == y;
          }
        }
      }
      [s[0]] + tail
    else
      Matching(s[1..], prefix)
  }

  /** `collect().last().cloned()`. */
  function Last(s: seq<string>): Option<string> {
    if s == [] then None else Some(s[|s| - 1])
  }

  /** `iter().find(|v| f == *v)`: the first entry equal to `f`. */
  function Find(s: seq<string>, f: string): (r: Option<string>)
    ensures r.Some? <==> f in s
    ensures r.Some? ==> r.value == f
  {
    if s == [] then None else if s[0] == f then Some(s[0]) else Find(s[1..], f)
  }

  /** The runtime version chosen for `config`, or `None` when none fits. */
  function SelectFramework(installed: seq<string>, config: Version): Option<string> {
    var sorted := Sort(installed);
    match config
    case Net(n) => Last(Matching(sorted, Decimal(n as nat)))
    case Framework(f) => Find(sorted, f)
  }

  /** `format!("net{}.0", framework.split_once('.').unwrap().0)`. */
  function NetOf(framework: string): Outcome<string> {
    match SplitOnce(framework, '.')
    case None => Panic("called `Option::unwrap()` on a `None` value")
    case Some(parts) => Done("net" + parts.0 + ".0")
  }

  /** `get_versions`, with the directory listing given as `installed`. */
  function GetVersions(installed: seq<string>, config: Version): Outcome<Resolved> {
    match SelectFramework(installed, config)
    case None => Panic("failed to resolve a framework version")
    case Some(framework) =>
      match NetOf(framework)
      case Panic(message) => Panic(message)
      case Done(net) => Done(Resolved(framework, net))
  }

  lemma {:induction false} LastIsGreatest(s: seq<string>, w: string)
    requires Sorted(s) && w in s
    ensures Last(s).Some? && LexLe(w, Last(s).value)
  {
    var i :| 0 <= i < |s| && s[i] == w;
    if i == |s| - 1 {
      LexLeReflexive(w);
    }
  }

  lemma SortKeepsElements(s: seq<string>)
    ensures forall x :: x in Sort(s) <==> x in s
  {
    forall x ensures x in Sort(s) <==> x in s {
      assert x in Sort(s) <==> x in multiset(Sort(s));
      assert x in s <==> x in multiset(s);
    }
  }

  /** For `Net(n)` the choice is the greatest installed name, in string order,
      among those that start with the decimal digits of `n`; there is one
      exactly when some installed name starts with them. */
  lemma {:induction false} SelectNetIsGreatest(installed: seq<string>, n: uint8)
    ensures var r := SelectFramework(installed, Net(n));
      && (r.Some? <==> exists w :: w in installed && StartsWith(w, Decimal(n as nat)))
      && (r.Some? ==>
            && r.value in installed
            && StartsWith(r.value, Decimal(n as nat))
            && forall w :: w in installed && StartsWith(w, Decimal(n as nat)) ==> LexLe(w, r.value))
  {
    var d := Decimal(n as nat);
    var sorted := Sort(installed);
    var m := Matching(sorted, d);
    SortKeepsElements(installed);
    assert SelectFramework(installed, Net(n)) == Last(m);
    assert forall x :: x in m <==> x in installed && StartsWith(x, d);
    if m != [] {
      var top := m[|m| - 1];
      assert top in m;
      forall w | w in installed && StartsWith(w, d)
        ensures LexLe(w, top)
      {
        LastIsGreatest(m, w);
      }
    }
  }

  /** For `Framework(f)` the choice is `f` itself, when it is installed. */
  lemma SelectFrameworkIsExact(installed: seq<string>, f: string)
    ensures SelectFramework(installed, Framework(f)) == if f in installed then Some(f) else None
  {
    var sorted := Sort(installed);
    assert f in sorted <==> f in multiset(sorted);
    assert f in installed <==> f in multiset(installed);
  }

  /** Whatever the version asked for, the chosen runtime is one of the
      installed ones. */
  lemma SelectedIsInstalled(installed: seq<string>, config: Version)
    ensures SelectFramework(installed, config).Some? ==> SelectFramework(installed, config).value in installed
  {
    match config
    case Net(n) => SelectNetIsGreatest(installed, n);
    case Framework(f) => SelectFrameworkIsExact(installed, f);
  }

  /** The choice depends only on which names are installed, not on the order
      in which the directory listing yields them. */
  lemma SelectionIgnoresListingOrder(a: seq<string>, b: seq<string>, config: Version)
    requires forall x :: x in a <==> x in b
    ensures SelectFramework(a, config) == SelectFramework(b, config)
  {
    match config
    case Net(n) =>
      SelectNetIsGreatest(a, n);
      SelectNetIsGreatest(b, n);
      var ra, rb := SelectFramework(a, config), SelectFramework(b, config);
      if ra.Some? {
        LexLeAntisymmetric(ra.value, rb.value);
      }
    case Framework(f) =>
      SelectFrameworkIsExact(a, f);
      SelectFrameworkIsExact(b, f);
  }

  /** The build aborts exactly when no runtime fits or the chosen one has no
      `.`; otherwise it yields the chosen runtime and `net` + the text before
      its first `.` + `.0`. */
  lemma GetVersionsOutcome(installed: seq<string>, config: Version)
    ensures var r := GetVersions(installed, config);
      var chosen := SelectFramework(installed, config);
      && (r.Done? <==> chosen.Some? && '.' in chosen.value)
      && (r.Done? ==>
            && r.value.framework == chosen.value
            && r.value.framework in installed
            && (exists rest :: r.value.framework == SplitOnce(chosen.value, '.').value.0 + "." + rest)
            && r.value.net == "net" + SplitOnce(chosen.value, '.').value.0 + ".0")
  {
    SelectedIsInstalled(installed, config);
    var r := GetVersions(installed, config);
    if r.Done? {
      var parts := SplitOnce(r.value.framework, '.').value;
      assert r.value.framework == parts.0 + "." + parts.1;
    }
  }

  /** When the runtime chosen for `Net(n)` has major version exactly `n`, the
      moniker is the one the configuration compares equal to. */
  lemma NetMonikerAgreesWithConfig(installed: seq<string>, n: uint8)
    requires var r := GetVersions(installed, Net(n));
      r.Done? && |Decimal(n as nat)| < |r.value.framework| && r.value.framework[|Decimal(n as nat)|] == '.'
    ensures Equals(Net(n), GetVersions(installed, Net(n)).value.net)
  {
    SelectNetIsGreatest(installed, n);
    var f := GetVersions(installed, Net(n)).value.framework;
    var d := Decimal(n as nat);
    assert '.' !in d by {
      forall i | 0 <= i < |d| ensures d[i] != '.' { assert IsDigit(d[i]); }
    }
    assert f == d + "." + f[|d| + 1..];
    SplitAtFirstDot(d, f[|d| + 1..]);
  }

  /** With two candidates of the same major, the later one in string order
      wins. */
  lemma SelectOfTwo(a: string, b: string, n: uint8)
    requires StartsWith(a, Decimal(n as nat)) && StartsWith(b, Decimal(n as nat))
    requires LexLe(a, b) && a != b
    ensures SelectFramework([a, b], Net(n)) == Some(b)
  {
    SelectNetIsGreatest([a, b], n);
    var r := SelectFramework([a, b], Net(n));
    assert a in [a, b];
    if r.value == a {
      LexLeAntisymmetric(a, b);
    }
  }

  lemma EightSelectsNine()
    ensures SelectFramework(["8.0.10", "8.0.9"], Net(8)) == Some("8.0.9")
  {
    assert Decimal(8) == "8";
    assert LexLe("8.0.10", "8.0.9") by {
      assert "8.0.10"[1..] == ".0.10" && "8.0.9"[1..] == ".0.9";
      assert ".0.10"[1..] == "0.10" && ".0.9"[1..] == "0.9";
      assert "0.10"[1..] == ".10" && "0.9"[1..] == ".9";
      assert ".10"[1..] == "10" && ".9"[1..] == "9";
    }
    SelectOfTwo("8.0.10", "8.0.9", 8);
  }

  /** The moniker keeps the text before the first `.`, whatever follows it. */
  lemma NetOfSplitsAtFirstDot(major: string, rest: string)
    requires '.' !in major
    ensures NetOf(major + "." + rest) == Done("net" + major + ".0")
  {
    SplitAtFirstDot(major, rest);
  }

  lemma NetOfEight()
    ensures NetOf("8.0.9") == Done("net8.0")
  {
    assert "8.0.9" == "8" + "." + "0.9";
    NetOfSplitsAtFirstDot("8", "0.9");
    assert "net" + "8" + ".0" == "net8.0";
  }

  /** Names are compared as strings, not as version numbers: with 8.0.9 and
      8.0.10 installed, `Net(8)` selects 8.0.9. */
  lemma StringOrderNotVersionOrder()
    ensures GetVersions(["8.0.10", "8.0.9"], Net(8)) == Done(Resolved("8.0.9", "net8.0"))
  {
    EightSelectsNine();
    NetOfEight();
  }

  lemma OneSelectsTen()
    ensures SelectFramework(["1.0.0", "10.0.1"], Net(1)) == Some("10.0.1")
  {
    assert Decimal(1) == "1";
    assert LexLe("1.0.0", "10.0.1") by {
      assert "1.0.0"[1..] == ".0.0" && "10.0.1"[1..] == "0.0.1";
    }
    SelectOfTwo("1.0.0", "10.0.1", 1);
  }

  /** The major is matched as a string prefix: `Net(1)` also accepts runtime
      10.0.1, and then targets `net10.0`. */
  lemma PrefixMatchesLongerMajor()
    ensures GetVersions(["1.0.0", "10.0.1"], Net(1)) == Done(Resolved("10.0.1", "net10.0"))
  {
    assert NetOf("10.0.1") == Done("net10.0") by {
      assert "10.0.1" == "10" + "." + "0.1";
      NetOfSplitsAtFirstDot("10", "0.1");
      assert "net" + "10" + ".0" == "net10.0";
    }
    OneSelectsTen();
  }
}
