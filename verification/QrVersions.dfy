/** The version tables of services/auth-bridge/qr.ts: versions 1 to 4 at error correction level M. */
module QrVersions {
  import opened Wrappers

  datatype VersionInfo = VersionInfo(totalCW: nat, ecPerBlock: nat, blocks: nat, dataCW: nat)

  predicate IsVersion(v: int) {
    1 <= v <= 4
  }

  function Info(version: int): VersionInfo
    requires IsVersion(version)
  {
    match version
    case 1 => VersionInfo(26, 10, 1, 16)
    case 2 => VersionInfo(44, 16, 1, 28)
    case 3 => VersionInfo(70, 26, 1, 44)
    case _ => VersionInfo(100, 18, 2, 64)
  }

  function ByteCapacity(version: int): nat
    requires IsVersion(version)
  {
    match version
    case 1 => 14
    case 2 => 26
    case 3 => 42
    case _ => 62
  }

  function VersionSize(version: int): int {
    17 + version * 4
  }

  function CharCountBits(version: int): nat {
    if version <= 9 then 8 else 16
  }

  /** The smallest version that holds `dataLength` bytes; an error when none does. */
  method SelectVersion(dataLength: nat) returns (r: Result<int, string>)
    ensures r.Ok? <==> dataLength <= 62
    ensures r.Ok? ==> IsVersion(r.value) && dataLength <= ByteCapacity(r.value)
    ensures r.Ok? ==> forall v :: 1 <= v < r.value ==> ByteCapacity(v) < dataLength
  {
    for v := 1 to 5
      invariant forall u :: 1 <= u < v ==> ByteCapacity(u) < dataLength
    {
      if dataLength <= ByteCapacity(v) {
        return Ok(v);
      }
    }
    assert ByteCapacity(4) < dataLength;
    return Err("Data too long");
  }
}
