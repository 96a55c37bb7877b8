/** The runtime-version setting of `managed.config.json` (src/config.rs): how a
    version string is read, compared with version strings and defaulted. */
module Config {
  import opened Outcomes
  import opened Text

  /** Rust's `u8`. */
  newtype uint8 = x: int | 0 <= x < 256

  /** `Net(n)` asks for the newest installed runtime of major version `n`;
      `Framework(v)` names one exact installed runtime version. */
  datatype Version = Net(major: uint8) | Framework(name: string)

  predicate IsAsciiUpper(c: char) {
    'A' <= c <= 'Z'
  }

  function AsciiLower(c: char): char {
    if IsAsciiUpper(c) then (c as int + 32) as char else c
  }

  /** `str::to_ascii_lowercase`: each of the 26 ASCII capitals becomes its small
      letter, every other character stays. */
  function ToAsciiLowercase(s: string): (r: string)
    ensures |r| == |s|
    ensures forall i :: 0 <= i < |r| ==> !IsAsciiUpper(r[i])
    ensures forall i :: 0 <= i < |s| && !IsAsciiUpper(s[i]) ==> r[i] == s[i]
    ensures forall i :: 0 <= i < |s| && IsAsciiUpper(s[i]) ==> r[i] == (s[i] as int + 32) as char
  {
    seq(|s|, i requires 0 <= i < |s| => AsciiLower(s[i]))
  }

  /** `str::strip_prefix`. */
  function StripPrefix(s: string, prefix: string): (r: Option<string>)
    ensures r.Some? <==> StartsWith(s, prefix)
    ensures r.Some? ==> s == prefix + r.value
  {
    if StartsWith(s, prefix) then
      assert s == prefix + s[|prefix|..];
      Some(s[|prefix|..])
    else None
  }

  /** `<u8 as FromStr>::from_str`: an optional leading `+`, then at least one
      ASCII digit and nothing else, with a value below 256. */
  function ParseU8(s: string): (r: Option<uint8>)
    ensures r.Some? ==> s != [] && s != "+"
  {
    var digits := if |s| > 0 && s[0] == '+' then s[1..] else s;
    if digits == [] || !AllDigits(digits) then None
    else if DigitsValue(digits) < 256 then Some(DigitsValue(digits) as uint8)
    else None
  }

  /** `impl Deserialize for Version`, applied to the string the JSON holds. */
  function Deserialize(s: string): Outcome<Version> {
    var value := ToAsciiLowercase(s);
    match StripPrefix(value, "net")
    case Some(version) =>
      (match SplitOnce(version, '.')
       case None => Panic("called `Option::unwrap()` on a `None` value")
       case Some(parts) =>
         match ParseU8(parts.0)
         case None => Panic("called `Result::unwrap()` on an `Err` value")
         case Some(major) => Done(Net(major)))
    case None => Done(Framework(value))
  }

  /** The string `Net(major)` is written as: `net{major}.0`. */
  function NetMoniker(major: uint8): string {
    "net" + Decimal(major as nat) + ".0"
  }

  /** `impl PartialEq<A: AsRef<str>> for Version`. */
  predicate Equals(v: Version, s: string) {
    match v
    case Net(major) => NetMoniker(major) == s
    case Framework(name) => name == s
  }

  /** `impl Default for Version`. */
  function DefaultVersion(): Version {
    Net(8)
  }

  lemma LowercaseIdempotent(s: string)
    ensures ToAsciiLowercase(ToAsciiLowercase(s)) == ToAsciiLowercase(s)
  {
  }

  /** The whole input is lowercased before anything else, so case never
      changes what a string deserialises to. */
  lemma DeserializeIgnoresCase(s: string)
    ensures Deserialize(ToAsciiLowercase(s)) == Deserialize(s)
  {
    LowercaseIdempotent(s);
  }

  /** Input that does not start with `net` (in any case) is a framework version,
      kept in lower case. */
  lemma DeserializeFramework(s: string)
    requires !StartsWith(ToAsciiLowercase(s), "net")
    ensures Deserialize(s) == Done(Framework(ToAsciiLowercase(s)))
  {
  }

  /** Input that starts with `net` never yields a framework version: it yields
      `Net` of the `u8` written between `net` and the first `.`, and panics when
      there is no `.` or that text is not a `u8`. */
  lemma DeserializeNet(s: string)
    requires StartsWith(ToAsciiLowercase(s), "net")
    ensures var rest := ToAsciiLowercase(s)[3..];
      match SplitOnce(rest, '.')
      case None => Deserialize(s).Panic?
      case Some(parts) =>
        if ParseU8(parts.0).Some? then Deserialize(s) == Done(Net(ParseU8(parts.0).value))
        else Deserialize(s).Panic?
  {
  }

  lemma LowercaseUnchanged(s: string)
    requires forall i :: 0 <= i < |s| ==> !IsAsciiUpper(s[i])
    ensures ToAsciiLowercase(s) == s
  {
  }

  /** Splitting at the first `.` of `major + "." + rest`, where `major` has no `.`. */
  lemma SplitAtFirstDot(major: string, rest: string)
    requires '.' !in major
    ensures SplitOnce(major + "." + rest, '.') == Some((major, rest))
  {
    var s := major + "." + rest;
    assert s[|major|] == '.' && s[..|major|] == major;
    assert s[|major| + 1..] == rest;
  }

  /** What `net{major}.{rest}` deserialises to, for lower-case text without a
      `.` in `major`: `Net` of the `u8` that `major` spells, or a panic. */
  lemma DeserializeNetText(major: string, rest: string)
    requires '.' !in major
    requires forall i :: 0 <= i < |major| ==> !IsAsciiUpper(major[i])
    requires forall i :: 0 <= i < |rest| ==> !IsAsciiUpper(rest[i])
    ensures match ParseU8(major)
      case Some(m) => Deserialize("net" + major + "." + rest) == Done(Net(m))
      case None => Deserialize("net" + major + "." + rest).Panic?
  {
    var s := "net" + major + "." + rest;
    LowercaseUnchanged(s);
    assert StartsWith(s, "net") && s[3..] == major + "." + rest;
    SplitAtFirstDot(major, rest);
  }

  lemma {:induction false} ParseDecimal(n: nat)
    requires n < 256
    ensures ParseU8(Decimal(n)) == Some(n as uint8)
  {
    var d := Decimal(n);
    assert d[0] != '+' by { assert IsDigit(d[0]); }
  }

  /** Round trip: every `Net(v)` deserialises from the string it compares equal
      to. */
  lemma {:induction false} NetRoundTrip(v: uint8)
    ensures Deserialize(NetMoniker(v)) == Done(Net(v))
    ensures Equals(Net(v), NetMoniker(v))
  {
    var d := Decimal(v as nat);
    assert forall i :: 0 <= i < |d| ==> IsDigit(d[i]);
    ParseDecimal(v as nat);
    DeserializeNetText(d, "0");
    Reassociate("net" + d, ".", "0");
    assert "." + "0" == ".0";
  }

  lemma Reassociate(a: string, b: string, c: string)
    ensures a + b + c == a + (b + c)
  {
  }

  /** A string names at most one `Net` version. */
  lemma EqualsNetUnique(a: uint8, b: uint8, s: string)
    requires Equals(Net(a), s) && Equals(Net(b), s)
    ensures a == b
  {
    var da, db := Decimal(a as nat), Decimal(b as nat);
    assert da == s[3..|s| - 2] == db;
    DecimalInjective(a as nat, b as nat);
  }

  /** A string equal to a version deserialises to that version exactly when the
      version is a `Net`, or a framework version already in lower case that
      does not start with `net`. */
  lemma EqualsThenDeserialize(v: Version, s: string)
    requires Equals(v, s)
    ensures Deserialize(s) == Done(v) <==>
      (v.Net? || (ToAsciiLowercase(v.name) == v.name && !StartsWith(v.name, "net")))
  {
    if v.Net? {
      NetRoundTrip(v.major);
    } else if ToAsciiLowercase(s) == s && StartsWith(s, "net") {
      DeserializeNet(s);
    }
  }

  lemma NetEightMoniker()
    ensures NetMoniker(8) == "net8.0"
  {
  }

  /** Parsing ignores case but equality does not: `NET{v}.0` reads as `Net(v)`,
      which is not equal to `NET{v}.0`. */
  lemma CaseInsensitiveParseCaseSensitiveEquals(v: uint8)
    ensures Deserialize("NET" + Decimal(v as nat) + ".0") == Done(Net(v))
    ensures !Equals(Net(v), "NET" + Decimal(v as nat) + ".0")
  {
    var d := Decimal(v as nat);
    var upper := "NET" + d + ".0";
    assert ToAsciiLowercase(upper) == NetMoniker(v) by {
      forall i | 0 <= i < |upper| ensures ToAsciiLowercase(upper)[i] == NetMoniker(v)[i] {
        if 3 <= i < 3 + |d| {
          assert upper[i] == d[i - 3] && IsDigit(d[i - 3]);
        }
      }
    }
    DeserializeIgnoresCase(upper);
    NetRoundTrip(v);
    assert NetMoniker(v)[0] != upper[0];
  }

  lemma LeadingZeroMajor()
    ensures Deserialize("net08.0") == Done(Net(8))
  {
    assert DigitsValue("08") == 8 by { assert "08"[..1] == "0"; }
    assert ParseU8("08") == Some(8);
    assert "net08.0" == "net" + "08" + "." + "0";
    DeserializeNetText("08", "0");
  }

  lemma PlusSignMajor()
    ensures Deserialize("net+8.0") == Done(Net(8))
  {
    assert "+8"[1..] == "8";
    assert DigitsValue("8") == 8 by { assert "8"[..0] == []; }
    assert ParseU8("+8") == Some(8);
    assert "net+8.0" == "net" + "+8" + "." + "0";
    DeserializeNetText("+8", "0");
  }

  /** Several strings read as the same `Net` version, but only the canonical one
      compares equal to it. */
  lemma NonCanonicalMajors()
    ensures Deserialize("net08.0") == Done(Net(8))
    ensures Deserialize("net+8.0") == Done(Net(8))
    ensures !Equals(Net(8), "net08.0") && !Equals(Net(8), "net+8.0")
  {
    LeadingZeroMajor();
    PlusSignMajor();
    NetEightMoniker();
    assert |"net8.0"| != |"net08.0"| && |"net+8.0"| == |"net08.0"|;
  }

  /** The ways the `unwrap` calls abort. Without a `.`: */
  lemma NetWithoutDotPanics()
    ensures Deserialize("net8").Panic?
  {
    LowercaseUnchanged("net8");
    assert StartsWith("net8", "net") && "net8"[3..] == "8";
  }

  /** With a major that is not a number: */
  lemma NonNumericMajorPanics()
    ensures Deserialize("netcoreapp3.1").Panic?
  {
    assert ParseU8("coreapp3") == None by { assert !IsDigit("coreapp3"[0]); }
    assert "netcoreapp3.1" == "net" + "coreapp3" + "." + "1";
    DeserializeNetText("coreapp3", "1");
  }

  /** With a major that does not fit in a `u8`: */
  lemma OverflowingMajorPanics()
    ensures Deserialize("net256.0").Panic?
  {
    assert DigitsValue("256") == 256 by {
      assert "256"[..2] == "25" && "25"[..1] == "2";
    }
    assert ParseU8("256") == None;
    assert "net256.0" == "net" + "256" + "." + "0";
    DeserializeNetText("256", "0");
  }

  /** The default is .NET 8, written `net8.0`. */
  lemma DefaultIsNet8()
    ensures Equals(DefaultVersion(), "net8.0")
    ensures Deserialize("net8.0") == Done(DefaultVersion())
  {
    NetEightMoniker();
    NetRoundTrip(8);
  }
}
