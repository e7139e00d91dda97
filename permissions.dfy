/**
 * The POSIX permission badge of the status line: one type character and
 * nine `rwx` characters, owner, group, other, most significant bit first.
 */
module Permissions {
  import opened FsModel

  /** Position `k` of the nine shows bit `8 - k` of the mode: `r`, `w`, `x` by column, '-' when clear. */
  function PermissionChar(mode: bv32, k: nat): char
    requires k < 9
  {
    if (mode >> ((8 - k) as bv5)) & 1 == 1 then "rwx"[k % 3] else '-'
  }

  /** The nine characters of the badge for `mode`. */
  function PermissionString(mode: bv32): (s: string)
    ensures |s| == 9
    ensures forall k :: 0 <= k < 9 ==> s[k] == PermissionChar(mode, k)
  {
    seq(9, k requires 0 <= k < 9 => PermissionChar(mode, k))
  }

  /** The masks of `format_permissions`, in the order the badge shows them. */
  const Masks: seq<bv32> := [0x100, 0x80, 0x40, 0x20, 0x10, 0x8, 0x4, 0x2, 0x1]

  /** One character pushed by `format_permissions`: the letter when the mask's bit is set. */
  function MaskedChar(mode: bv32, mask: bv32, letter: char): char {
    if mode & mask != 0 then letter else '-'
  }

  /** Mask `3 * i + j` with letter `j` gives the badge's character at that position. */
  lemma MaskAt(mode: bv32, i: nat, j: nat)
    requires i < 3 && j < 3
    ensures PermissionString(mode)[3 * i + j] == MaskedChar(mode, Masks[3 * i + j], "rwx"[j])
  {
    if i == 0 {
      if j == 0 {} else if j == 1 {} else {}
    } else if i == 1 {
      if j == 0 {} else if j == 1 {} else {}
    } else {
      if j == 0 {} else if j == 1 {} else {}
    }
  }

  /**
   * `format_permissions`: two nested loops over owner/group/other and
   * read/write/execute, pushing one character per mask.
   */
  method FormatPermissions(mode: bv32) returns (s: string)
    ensures |s| == 9
    ensures forall k :: 0 <= k < 9 ==> s[k] == PermissionChar(mode, k)
  {
    s := "";
    for i := 0 to 3
      invariant |s| == 3 * i
      invariant s == PermissionString(mode)[..|s|]
    {
      for j := 0 to 3
        invariant |s| == 3 * i + j
        invariant s == PermissionString(mode)[..|s|]
      {
        var c := MaskedChar(mode, Masks[3 * i + j], "rwx"[j]);
        MaskAt(mode, i, j);
        s := s + [c];
      }
    }
    assert s == PermissionString(mode);
  }

  /** Full permissions read `rwxrwxrwx`, none read `---------`. */
  lemma PermissionExtremes()
    ensures PermissionString(0x1FF) == "rwxrwxrwx"
    ensures PermissionString(0) == "---------"
  {
  }

  /** Only the nine low bits matter: file type, setuid, setgid and sticky bits are not shown. */
  lemma HigherBitsIgnored(mode: bv32)
    ensures PermissionString(mode) == PermissionString(mode & 0x1FF)
  {
    forall k | 0 <= k < 9 ensures PermissionChar(mode, k) == PermissionChar(mode & 0x1FF, k) {
      LowBitKept(mode, k);
    }
  }

  /** Masking with 0o777 keeps bits 0 to 8. */
  lemma LowBitKept(mode: bv32, k: nat)
    requires k < 9
    ensures (mode >> ((8 - k) as bv5)) & 1 == ((mode & 0x1FF) >> ((8 - k) as bv5)) & 1
  {
    if k == 0 {} else if k == 1 {} else if k == 2 {} else if k == 3 {} else if k == 4 {}
    else if k == 5 {} else if k == 6 {} else if k == 7 {} else {}
  }

  /** The first character of the badge: 'd' for a directory, 'l' for a link, '-' otherwise. */
  function TypeChar(m: Metadata): (c: char)
    ensures c == 'd' <==> m.isDir
    ensures c == 'l' <==> !m.isDir && m.isSymlink
    ensures c == '-' <==> !m.isDir && !m.isSymlink
  {
    if m.isDir then 'd' else if m.isSymlink then 'l' else '-'
  }

  /** The whole badge that `file_permission` stores: ten characters. */
  function Badge(m: Metadata): (b: string)
    ensures |b| == 10 && b[0] == TypeChar(m) && b[1..] == PermissionString(m.mode)
  {
    [TypeChar(m)] + PermissionString(m.mode)
  }
}
