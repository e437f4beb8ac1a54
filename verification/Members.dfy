/** Members of a cluster, as cluster/member.go describes them. */
module Members {
  import opened Wrappers

  type Uuid = nat
  type Address = nat

  datatype MemberVersion = MemberVersion(major: byte, minor: byte, patch: byte)

  datatype Member = Member(uuid: Uuid, address: Address, lite: bool, version: MemberVersion)

  /** `MemberVersion.MajorMinor`: the version without its patch number. */
  function MajorMinor(v: MemberVersion): nat {
    0x100 * (v.major as int) + v.minor as int
  }

  /** It orders versions by major number and then by minor number. */
  lemma MajorMinorOrders(a: MemberVersion, b: MemberVersion)
    ensures MajorMinor(a) < MajorMinor(b) <==> a.major < b.major || (a.major == b.major && a.minor < b.minor)
    ensures MajorMinor(a) == MajorMinor(b) <==> a.major == b.major && a.minor == b.minor
  {
  }
}
