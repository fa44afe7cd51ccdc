/** Release versions and the texts that stand for them in the configuration and in the state file. */
module Versions {

  datatype Option<+T> = None | Some(value: T)

  datatype Result<+T> = Ok(value: T) | Err(why: string)

  /** A parsed release tag; pre-release labels are not modelled. */
  datatype Version = Version(major: nat, minor: nat, patch: nat)

  predicate Less(a: Version, b: Version) {
    || a.major < b.major
    || (a.major == b.major && a.minor < b.minor)
    || (a.major == b.major && a.minor == b.minor && a.patch < b.patch)
  }

  /** The first number in which two releases differ decides. */
  lemma FirstDifferenceDecides(a: Version, b: Version)
    ensures a.major != b.major ==> (Less(a, b) <==> a.major < b.major)
    ensures a.major == b.major && a.minor != b.minor ==> (Less(a, b) <==> a.minor < b.minor)
    ensures a.major == b.major && a.minor == b.minor ==> (Less(a, b) <==> a.patch < b.patch)
  {
  }

  predicate AtMost(a: Version, b: Version) {
    !Less(b, a)
  }

  ghost predicate Ascending(s: seq<Version>) {
    forall i, j :: 0 <= i < j < |s| ==> Less(s[i], s[j])
  }

  /** The texts the code compares: empty, the word "stable", a text that parses, or any other text. */
  datatype VersionText = Blank | Stable | Tag(v: Version) | Ref(name: string)

  function Parse(t: VersionText): Result<Version> {
    match t
    case Tag(v) => Ok(v)
    case _ => Err("malformed version")
  }
}
