/**
 File modes: the bits that a listing keeps (internal/fs/convert_file_info.go),
 the system's bits that restore sets from them (internal/restore/visitor.go),
 and what is read back. Modes are numbers with bits.
 */
module Modes {
  const PERMISSIONS := 0x200

  const MODE_SETUID := 0x0080_0000
  const MODE_SETGID := 0x0040_0000
  const MODE_STICKY := 0x0010_0000

  const S_ISUID := 0x800
  const S_ISGID := 0x400
  const S_ISVTX := 0x200

  predicate HasBit(mode: nat, bit: nat)
    requires bit > 0
  {
    mode / bit % 2 == 1
  }

  function WithBit(mode: nat, bit: nat): nat
    requires bit > 0
  {
    if HasBit(mode, bit) then mode else mode + bit
  }

  /** Nine permission bits, and three more in the places given. */
  function Bits(permissions: nat, setuid: nat, setgid: nat, sticky: nat, u: bool, g: bool, t: bool): nat {
    permissions % PERMISSIONS + (if u then setuid else 0) + (if g then setgid else 0) + (if t then sticky else 0)
  }

  /** The twelve bits of a mode that go into a listing. */
  function KeptMode(mode: nat): nat {
    Bits(mode, MODE_SETUID, MODE_SETGID, MODE_STICKY,
         HasBit(mode, MODE_SETUID), HasBit(mode, MODE_SETGID), HasBit(mode, MODE_STICKY))
  }

  /** The system's mode for the one in a listing. */
  function SystemMode(mode: nat): nat {
    Bits(mode, S_ISUID, S_ISGID, S_ISVTX,
         HasBit(mode, MODE_SETUID), HasBit(mode, MODE_SETGID), HasBit(mode, MODE_STICKY))
  }

  /** The mode that a file with this mode of the system's is seen to have. */
  function ModeSeen(system: nat): nat {
    Bits(system, MODE_SETUID, MODE_SETGID, MODE_STICKY,
         HasBit(system, S_ISUID), HasBit(system, S_ISGID), HasBit(system, S_ISVTX))
  }

  method SyscallMode(i: nat) returns (o: nat)
    ensures o == SystemMode(i)
  {
    o := i % PERMISSIONS;
    if HasBit(i, MODE_SETUID) {
      o := WithBit(o, S_ISUID);
    }
    if HasBit(i, MODE_SETGID) {
      o := WithBit(o, S_ISGID);
    }
    if HasBit(i, MODE_STICKY) {
      o := WithBit(o, S_ISVTX);
    }
  }

  /** What the three places tell, whatever the permissions are. */
  lemma SystemPlacesTell(permissions: nat, u: bool, g: bool, t: bool)
    ensures var o := Bits(permissions, S_ISUID, S_ISGID, S_ISVTX, u, g, t);
      && o % PERMISSIONS == permissions % PERMISSIONS && o < 2 * S_ISUID
      && (HasBit(o, S_ISUID) <==> u) && (HasBit(o, S_ISGID) <==> g) && (HasBit(o, S_ISVTX) <==> t)
  {
  }

  /** The bit in the place given, counted from the lowest. */
  predicate LowBit(mode: nat, place: nat) {
    if place == 0 then mode % 2 == 1 else LowBit(mode / 2, place - 1)
  }

  function Pow2(n: nat): (p: nat)
    ensures p > 0
  {
    if n == 0 then 1 else 2 * Pow2(n - 1)
  }

  lemma Halve(half: nat, rest: nat)
    ensures (2 * half + rest) % 2 == rest % 2 && (2 * half + rest) / 2 == half + rest / 2
  {
  }

  /** The low bits do not depend on what stands above them. */
  lemma {:induction false} LowBitsBelow(above: nat, low: nat, width: nat, place: nat)
    requires low < Pow2(width) && place < width
    ensures LowBit(Pow2(width) * above + low, place) == LowBit(low, place)
  {
    var half := Pow2(width - 1) * above;
    assert Pow2(width) * above + low == 2 * half + low;
    Halve(half, low);
    if place > 0 {
      LowBitsBelow(above, low / 2, width - 1, place - 1);
    }
  }

  /** Equal remainders have the same nine bits. */
  lemma PermissionBits(a: nat, b: nat, place: nat)
    requires a % PERMISSIONS == b % PERMISSIONS && place < 9
    ensures LowBit(a, place) == LowBit(b, place)
  {
    assert Pow2(9) == PERMISSIONS by {
      assert Pow2(3) == 8;
      assert Pow2(6) == 64;
    }
    LowBitsBelow(a / PERMISSIONS, a % PERMISSIONS, 9, place);
    LowBitsBelow(b / PERMISSIONS, b % PERMISSIONS, 9, place);
  }

  /** Each bit of the system's mode is set if and only if its source bit is, and there are no others. */
  lemma SystemModeBits(mode: nat)
    ensures forall place :: 0 <= place < 9 ==> (LowBit(SystemMode(mode), place) <==> LowBit(mode, place))
    ensures HasBit(SystemMode(mode), S_ISUID) <==> HasBit(mode, MODE_SETUID)
    ensures HasBit(SystemMode(mode), S_ISGID) <==> HasBit(mode, MODE_SETGID)
    ensures HasBit(SystemMode(mode), S_ISVTX) <==> HasBit(mode, MODE_STICKY)
    ensures SystemMode(mode) < 2 * S_ISUID
  {
    SystemPlacesTell(mode, HasBit(mode, MODE_SETUID), HasBit(mode, MODE_SETGID), HasBit(mode, MODE_STICKY));
    forall place | 0 <= place < 9
      ensures LowBit(SystemMode(mode), place) == LowBit(mode, place)
    {
      PermissionBits(SystemMode(mode), mode, place);
    }
  }

  const OWNER_READ_PLACE := 8

  /** Whoever owns a file of this mode may open it for reading. */
  predicate OwnerReads(mode: nat) {
    LowBit(mode, OWNER_READ_PLACE)
  }

  lemma OwnerStillReads(mode: nat)
    ensures OwnerReads(SystemMode(mode)) == OwnerReads(mode)
  {
    SystemModeBits(mode);
  }

  /** A listing keeps the permission bits and three others, and a system's mode shows the same: each bit where it belongs. */
  lemma KeptModeBits(mode: nat, system: nat)
    ensures KeptMode(mode) % PERMISSIONS == mode % PERMISSIONS && ModeSeen(system) % PERMISSIONS == system % PERMISSIONS
    ensures HasBit(KeptMode(mode), MODE_SETUID) <==> HasBit(mode, MODE_SETUID)
    ensures HasBit(KeptMode(mode), MODE_SETGID) <==> HasBit(mode, MODE_SETGID)
    ensures HasBit(KeptMode(mode), MODE_STICKY) <==> HasBit(mode, MODE_STICKY)
    ensures HasBit(ModeSeen(system), MODE_SETUID) <==> HasBit(system, S_ISUID)
    ensures HasBit(ModeSeen(system), MODE_SETGID) <==> HasBit(system, S_ISGID)
    ensures HasBit(ModeSeen(system), MODE_STICKY) <==> HasBit(system, S_ISVTX)
  {
    ModePlacesTell(mode, HasBit(mode, MODE_SETUID), HasBit(mode, MODE_SETGID), HasBit(mode, MODE_STICKY));
    ModePlacesTell(system, HasBit(system, S_ISUID), HasBit(system, S_ISGID), HasBit(system, S_ISVTX));
  }

  lemma ModePlacesTell(permissions: nat, u: bool, g: bool, t: bool)
    ensures var o := Bits(permissions, MODE_SETUID, MODE_SETGID, MODE_STICKY, u, g, t);
      && o % PERMISSIONS == permissions % PERMISSIONS
      && (HasBit(o, MODE_SETUID) <==> u) && (HasBit(o, MODE_SETGID) <==> g) && (HasBit(o, MODE_STICKY) <==> t)
  {
  }

  /** A file given a mode is then seen to have the kept bits of it. */
  lemma KeptModeComesBack(mode: nat)
    ensures ModeSeen(SystemMode(mode)) == KeptMode(mode)
  {
    SystemPlacesTell(mode, HasBit(mode, MODE_SETUID), HasBit(mode, MODE_SETGID), HasBit(mode, MODE_STICKY));
  }

  /** No two modes that a listing can hold are restored alike. */
  lemma SystemModeIsInjective(a: nat, b: nat)
    requires KeptMode(a) == a && KeptMode(b) == b && SystemMode(a) == SystemMode(b)
    ensures a == b
  {
    KeptModeComesBack(a);
    KeptModeComesBack(b);
  }
}
