/**
 * The wake-up data lines of the configuration file: groups of hexadecimal byte
 * pairs separated by single white-space characters, parsed into the flat table
 * (`ManfData`) or the row table (`W1UManfData`).
 */
module ManfConf {
  import opened Bytes
  import opened HciCommand

  predicate IsSpace(c: char) {
    c == ' ' || c == '\t' || c == '\n' || c == '\r' || c == 11 as char || c == 12 as char
  }

  predicate IsHexDigit(c: char) {
    '0' <= c <= '9' || 'a' <= c <= 'f' || 'A' <= c <= 'F'
  }

  function HexValue(c: char): nat
    requires IsHexDigit(c)
    ensures HexValue(c) < 16
  {
    if '0' <= c <= '9' then c as int - '0' as int
    else if 'a' <= c <= 'f' then c as int - 'a' as int + 10
    else c as int - 'A' as int + 10
  }

  /** The two characters at `i` spell `b`, as `sscanf` with `%2x` reads them. */
  predicate SpellsByte(text: string, i: nat, b: byte) {
    i + 2 <= |text| && IsHexDigit(text[i]) && IsHexDigit(text[i + 1])
    && b == 16 * HexValue(text[i]) + HexValue(text[i + 1])
  }

  /**
   * From position `i` on, `text` spells the rest `cur` of a group and then the
   * groups `more`, one white-space character before each of them.
   */
  predicate Spells(text: string, i: nat, cur: seq<byte>, more: seq<seq<byte>>)
    decreases |more|, |cur|
  {
    cur != [] && SpellsByte(text, i, cur[0]) &&
    if |cur| > 1 then Spells(text, i + 2, cur[1..], more)
    else if more == [] then i + 2 == |text|
    else i + 3 <= |text| && IsSpace(text[i + 2]) && Spells(text, i + 3, more[0], more[1..])
  }

  ghost predicate SpellsGroups(text: string, groups: seq<seq<byte>>) {
    groups != [] && Spells(text, 0, groups[0], groups[1..])
  }

  /** The white space of `isspace` in the C locale, and the digits of both cases. */
  lemma CharacterSets(c: char)
    ensures IsSpace(c) <==> c as int == 32 || 9 <= c as int <= 13
    ensures IsHexDigit(c) <==> c in "0123456789abcdefABCDEF"
    ensures forall n :: 0 <= n < 16 ==>
              && IsHexDigit("0123456789abcdef"[n]) && HexValue("0123456789abcdef"[n]) == n
              && IsHexDigit("0123456789ABCDEF"[n]) && HexValue("0123456789ABCDEF"[n]) == n
  {
    var lower, upper := "0123456789abcdef", "0123456789ABCDEF";
    if IsHexDigit(c) {
      assert lower[HexValue(c)] == c || upper[HexValue(c)] == c;
    }
  }

  // ----- writing such a line -----

  function HexDigit(n: nat): (c: char)
    requires n < 16
    ensures IsHexDigit(c) && HexValue(c) == n && !IsSpace(c)
  {
    if n < 10 then ('0' as int + n) as char else ('a' as int + (n - 10)) as char
  }

  function HexByte(b: byte): string {
    [HexDigit(b / 16), HexDigit(b % 16)]
  }

  function LineOf(cur: seq<byte>, more: seq<seq<byte>>): string
    decreases |more|, |cur|
  {
    if cur == [] then ""
    else if |cur| > 1 then HexByte(cur[0]) + LineOf(cur[1..], more)
    else if more == [] then HexByte(cur[0])
    else HexByte(cur[0]) + " " + LineOf(more[0], more[1..])
  }

  lemma {:induction false} SpellsAfter(prefix: string, text: string, i: nat, cur: seq<byte>, more: seq<seq<byte>>)
    requires Spells(text, i, cur, more)
    ensures Spells(prefix + text, |prefix| + i, cur, more)
    decreases |more|, |cur|
  {
    var all := prefix + text;
    assert all[|prefix| + i] == text[i] && all[|prefix| + i + 1] == text[i + 1];
    if |cur| > 1 {
      SpellsAfter(prefix, text, i + 2, cur[1..], more);
    } else if more != [] {
      assert all[|prefix| + i + 2] == text[i + 2];
      SpellsAfter(prefix, text, i + 3, more[0], more[1..]);
    }
  }

  /** Every list of non-empty groups has a line that spells it. */
  lemma {:induction false} LineSpells(cur: seq<byte>, more: seq<seq<byte>>)
    requires cur != [] && forall i :: 0 <= i < |more| ==> more[i] != []
    ensures Spells(LineOf(cur, more), 0, cur, more)
    decreases |more|, |cur|
  {
    var head := HexByte(cur[0]);
    if |cur| > 1 {
      LineSpells(cur[1..], more);
      SpellsAfter(head, LineOf(cur[1..], more), 0, cur[1..], more);
    } else if more != [] {
      LineSpells(more[0], more[1..]);
      SpellsAfter(head + " ", LineOf(more[0], more[1..]), 0, more[0], more[1..]);
      assert head + " " + LineOf(more[0], more[1..]) == LineOf(cur, more);
    }
  }

  // ----- reading -----

  /** `sscanf(p + i, "%2x", &tmp)` on two hexadecimal digits. */
  method Scan2x(p: string, i: nat, ghost b: byte) returns (tmp: byte)
    requires SpellsByte(p, i, b)
    ensures tmp == b
  {
    tmp := 16 * HexValue(p[i]) + HexValue(p[i + 1]);
  }

  /** One byte of the current group is gone, or the next group has begun. */
  lemma SpellsNext(text: string, i: nat, cur: seq<byte>, more: seq<seq<byte>>)
    requires Spells(text, i, cur, more)
    ensures |cur| > 1 ==> i + 2 < |text| && !IsSpace(text[i + 2])
    ensures i + 2 <= |text|
  {
    if |cur| > 1 {
      assert SpellsByte(text, i + 2, cur[1]);
    }
  }

  lemma NextByte(flat: seq<byte>, j: nat, cur: seq<byte>, rest: seq<byte>)
    requires j <= |flat| && flat[j..] == cur + rest && cur != []
    ensures j < |flat| && flat[j] == cur[0] && flat[j + 1..] == cur[1..] + rest
  {
    assert flat[j] == flat[j..][0] && flat[j + 1..] == flat[j..][1..];
  }

  class Conf {
    const apcf: array<byte>
    const rows: array2<byte>
    var manfCnt: nat

    constructor ()
      ensures Shaped() && manfCnt == 0 && fresh(apcf) && fresh(rows)
      ensures forall r, k :: 0 <= r < MANF_ROW && 0 <= k < MANF_COLUMN ==> rows[r, k] == 0
    {
      apcf := new byte[256](_ => 0);
      rows := new byte[MANF_ROW, MANF_COLUMN]((r, k) => 0);
      manfCnt := 0;
    }

    /** The table dimensions, which never change. */
    predicate Shaped() {
      apcf.Length == 256 && rows.Length0 == MANF_ROW && rows.Length1 == MANF_COLUMN
    }

    /** `manf_data_split`: the groups end up in the flat table, one behind the other. */
    method ManfDataSplit(p: string, ghost groups: seq<seq<byte>>) returns (j: nat)
      requires Shaped() && SpellsGroups(p, groups) && |Flatten(groups)| <= 256
      modifies apcf
      ensures j == |Flatten(groups)| && apcf[..j] == Flatten(groups) && apcf[j..] == old(apcf[j..])
    {
      var i := 0;
      j := 0;
      ghost var cur, more, flat := groups[0], groups[1..], Flatten(groups);
      while i < |p|
        invariant j <= |flat| && apcf[..j] == flat[..j]
        invariant forall k :: j <= k < 256 ==> apcf[k] == old(apcf[k])
        invariant flat[j..] == cur + Flatten(more)
        invariant if i < |p| then Spells(p, i, cur, more) else cur == [] && more == []
        decreases |p| - i
      {
        SpellsNext(p, i, cur, more);
        NextByte(flat, j, cur, Flatten(more));
        var tmp := Scan2x(p, i, cur[0]);
        apcf[j] := tmp;
        j := j + 1;
        if i + 2 < |p| && IsSpace(p[i + 2]) {
          i := i + 3;
          cur, more := more[0], more[1..];
        } else {
          i := i + 2;
          cur := cur[1..];
        }
      }
    }

    /** `w1u_manf_data_split`: each group fills the front of its own row. */
    method W1uManfDataSplit(p: string, ghost groups: seq<seq<byte>>) returns (index: nat)
      requires Shaped() && SpellsGroups(p, groups)
      requires |groups| <= MANF_ROW && forall k :: 0 <= k < |groups| ==> |groups[k]| <= MANF_COLUMN
      modifies rows
      ensures index == |groups| - 1
      ensures forall r, k :: 0 <= r < MANF_ROW && 0 <= k < MANF_COLUMN ==>
                rows[r, k] == if r < |groups| && k < |groups[r]| then groups[r][k] else old(rows[r, k])
    {
      var i, j := 0, 0;
      index := 0;
      while i < |p|
        invariant index < |groups| && j <= |groups[index]|
        invariant if i < |p| then Spells(p, i, groups[index][j..], groups[index + 1..])
                  else j == |groups[index]| && index == |groups| - 1
        invariant forall r, k :: 0 <= r < MANF_ROW && 0 <= k < MANF_COLUMN ==>
                    rows[r, k] == if (r < index || (r == index && k < j)) && k < |groups[r]| then groups[r][k]
                                  else old(rows[r, k])
        decreases |p| - i
      {
        ghost var cur := groups[index][j..];
        SpellsNext(p, i, cur, groups[index + 1..]);
        var tmp := Scan2x(p, i, cur[0]);
        rows[index, j] := tmp;
        j := j + 1;
        if i + 2 < |p| && IsSpace(p[i + 2]) {
          assert groups[index + 1..][0] == groups[index + 1] && groups[index + 1..][1..] == groups[index + 2..];
          assert groups[index + 1][0..] == groups[index + 1];
          i := i + 3;
          index := index + 1;
          j := 0;
        } else {
          assert cur[1..] == groups[index][j..];
          i := i + 2;
        }
      }
    }

    /**
     * The `ManfData` branch of the loader: the count is kept only if the line holds
     * whole groups of six, so decrementing it six at a time ends exactly at zero. A
     * line of fewer than two characters leaves the old count in place.
     */
    method LoadManfData(str: string, ghost groups: seq<seq<byte>>)
      requires Shaped()
      requires |str| >= 2 ==> SpellsGroups(str, groups) && |Flatten(groups)| <= 256
      requires manfCnt % 6 == 0 && manfCnt <= 252
      modifies this, apcf
      ensures manfCnt % 6 == 0 && manfCnt <= 252
      ensures |str| >= 2 ==> manfCnt == (if |Flatten(groups)| % 6 == 0 then |Flatten(groups)| else 0)
                             && apcf[..|Flatten(groups)|] == Flatten(groups)
      ensures |str| < 2 ==> manfCnt == old(manfCnt) && apcf[..] == old(apcf[..])
    {
      if |str| < 2 {
      } else {
        manfCnt := ManfDataSplit(str, groups);
      }
      if manfCnt % 6 != 0 {
        manfCnt := 0;
      }
    }
  }

  // ----- trimming -----

  /** The characters of a NUL-terminated string that starts at `from`. */
  ghost predicate IsCString(a: seq<char>, from: nat, s: string) {
    && from + |s| < |a| && a[from..from + |s|] == s && a[from + |s|] == 0 as char
    && 0 as char !in s
  }

  /**
   * `aml_trim`, in place: the result starts at the first character that is not
   * white space and ends with the last one, and only white space was cut off.
   */
  method AmlTrim(a: array<char>, ghost s: string) returns (str: nat, ghost trimmed: string, ghost tail: string)
    requires IsCString(a[..], 0, s)
    modifies a
    ensures str <= |s| && IsCString(a[..], str, trimmed) && s == s[..str] + trimmed + tail
    ensures forall i :: 0 <= i < str ==> IsSpace(s[i])
    ensures forall i :: 0 <= i < |tail| ==> IsSpace(tail[i])
    ensures trimmed != [] ==> !IsSpace(trimmed[0]) && !IsSpace(trimmed[|trimmed| - 1])
  {
    str := 0;
    while IsSpace(a[str])
      invariant str <= |s| && a[..] == old(a[..])
      invariant forall i :: 0 <= i < str ==> IsSpace(s[i])
      decreases |s| - str
    {
      assert a[..][0..0 + |s|] == s && a[..][str] == a[str];
      assert str < |s| ==> a[str] == s[str];
      str := str + 1;
    }
    assert forall i :: 0 <= i < |s| ==> a[i] == a[..][0..0 + |s|][i] == s[i];
    if a[str] == 0 as char {
      trimmed, tail := [], [];
      return;
    }
    var end := str;
    while a[end + 1] != 0 as char
      invariant str <= end < |s| && a[..] == old(a[..])
      decreases |s| - end
    {
      end := end + 1;
    }
    assert end == |s| - 1;
    while end > str && IsSpace(a[end])
      invariant str <= end < |s| && a[..] == old(a[..])
      invariant forall i :: end < i < |s| ==> IsSpace(s[i])
    {
      end := end - 1;
    }
    a[end + 1] := 0 as char;
    trimmed, tail := s[str..end + 1], s[end + 1..];
  }
}
