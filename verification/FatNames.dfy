/**
 Names in a FAT directory: 8.3 names, aliases, and long names cut into slots.
 A name is the bytes of a C string, without its terminator.
 */
module FatNames {
  import opened FatTable

  const DOT: byte := 46
  const SPACE: byte := 32
  const TILDE: byte := 126
  const UNDERSCORE: byte := 95
  const NAME_MAX := 255
  const LFN_CHARS := 13
  const LFN_MAX_SLOTS := 20

  type Name = seq<byte>
  type Unit = x: int | 0 <= x < 65536

  predicate IsCString(name: Name) { forall i :: 0 <= i < |name| ==> name[i] != 0 }

  // ---------------------------------------------------------------- 8.3 names

  predicate OkIn83(c: byte) {
    || 65 <= c <= 90 || 48 <= c <= 57
    || c in [95, 45, 126, 33, 35, 36, 37, 38, 39, 40, 41, 64, 94, 96, 123, 125]
  }

  function Upper(c: byte): byte { if 97 <= c <= 122 then c - 32 else c }

  function Lower(c: byte): byte { if 65 <= c <= 90 then c + 32 else c }

  function FirstDot(name: Name): (d: nat)
    ensures d <= |name| && (d < |name| ==> name[d] == DOT)
    ensures forall i :: 0 <= i < d ==> name[i] != DOT
  {
    if name == [] || name[0] == DOT then 0 else 1 + FirstDot(name[1..])
  }

  /** One to eight legal characters, then optionally a dot and at most three more. */
  predicate Fits83(name: Name) {
    var d := FirstDot(name);
    && 1 <= d <= 8 && |name| - d - 1 <= 3
    && forall i :: 0 <= i < |name| && i != d ==> OkIn83(name[i])
  }

  /** The scan the driver makes, character by character. */
  method FitsIn83(name: Name) returns (fits: bool)
    ensures fits <==> Fits83(name)
  {
    var base, ext, dots := 0, 0, 0;
    ghost var d := FirstDot(name);
    var i := 0;
    while i < |name|
      invariant 0 <= i <= |name|
      invariant dots == (if i > d then 1 else 0)
      invariant base == (if i > d then d else i) && ext == (if i > d then i - d - 1 else 0)
      invariant forall k :: 0 <= k < i && k != d ==> OkIn83(name[k])
    {
      if name[i] == DOT {
        dots := dots + 1;
        if dots > 1 {
          return false;
        }
      } else {
        if !OkIn83(name[i]) {
          return false;
        }
        if dots > 0 { ext := ext + 1; } else { base := base + 1; }
      }
      i := i + 1;
    }
    return 1 <= base <= 8 && ext <= 3;
  }

  function Take(s: seq<byte>, n: nat): seq<byte> { if |s| <= n then s else s[..n] }

  function Pad(s: seq<byte>, n: nat): (r: seq<byte>)
    requires |s| <= n
    ensures |r| == n
  {
    s + seq(n - |s|, _ => SPACE)
  }

  function UpperAll(s: seq<byte>): (r: seq<byte>)
    ensures |r| == |s|
  {
    seq(|s|, i requires 0 <= i < |s| => Upper(s[i]))
  }

  function ToFatName(name: Name): (r: seq<byte>)
    ensures |r| == 11
  {
    var d := FirstDot(name);
    Pad(UpperAll(Take(name[..d], 8)), 8) + Pad(UpperAll(Take(if d < |name| then name[d + 1..] else [], 3)), 3)
  }

  /** What precedes the first space. */
  function UntilSpace(s: seq<byte>): (r: seq<byte>)
    ensures r <= s
  {
    if s == [] || s[0] == SPACE then [] else [s[0]] + UntilSpace(s[1..])
  }

  function LowerIf(flag: bool, s: seq<byte>): seq<byte> {
    if flag then seq(|s|, i requires 0 <= i < |s| => Lower(s[i])) else s
  }

  /** Read an 8.3 name back; two bits of `nt` say that the base or the extension was lower case. */
  function FromFatName(raw: seq<byte>, nt: byte): Name
    requires |raw| == 11
  {
    var base := LowerIf(nt as int / 8 % 2 == 1, UntilSpace(raw[..8]));
    if raw[8] == SPACE then base
    else base + [DOT] + LowerIf(nt as int / 16 % 2 == 1, UntilSpace(raw[8..]))
  }

  lemma {:induction false} UntilSpaceOfPadded(s: seq<byte>, n: nat)
    requires |s| <= n && forall i :: 0 <= i < |s| ==> s[i] != SPACE
    ensures UntilSpace(Pad(s, n)) == s
  {
    if s != [] {
      UntilSpaceOfPadded(s[1..], n - 1);
      assert Pad(s, n)[1..] == Pad(s[1..], n - 1);
    }
  }

  lemma {:induction false} UpperOfOk(s: seq<byte>)
    requires forall i :: 0 <= i < |s| ==> OkIn83(s[i])
    ensures UpperAll(s) == s && forall i :: 0 <= i < |s| ==> s[i] != SPACE
  {
  }

  predicate NoSpace(s: seq<byte>) { forall i :: 0 <= i < |s| ==> s[i] != SPACE }

  lemma {:induction false} PadFirst(s: seq<byte>, n: nat)
    requires |s| <= n && n > 0
    ensures Pad(s, n)[0] == if s == [] then SPACE else s[0]
  {
  }

  /** Base and extension read back, with a dot only if there is an extension. */
  lemma {:induction false} FromPadded(base: Name, ext: Name)
    requires |base| <= 8 && |ext| <= 3 && NoSpace(base) && NoSpace(ext)
    ensures FromFatName(Pad(base, 8) + Pad(ext, 3), 0) == if ext == [] then base else base + [DOT] + ext
  {
    hide UntilSpace;
    hide Pad;
    var b, e := Pad(base, 8), Pad(ext, 3);
    UntilSpaceOfPadded(base, 8);
    UntilSpaceOfPadded(ext, 3);
    PadFirst(ext, 3);
    assert (b + e)[..8] == b && (b + e)[8..] == e && (b + e)[8] == e[0];
  }

  function BaseOf(name: Name): Name { name[..FirstDot(name)] }

  function ExtOf(name: Name): Name { if FirstDot(name) < |name| then name[FirstDot(name) + 1..] else [] }

  /** A legal 8.3 name is stored as it is, padded. */
  lemma {:induction false} ToPadded(name: Name)
    requires Fits83(name)
    ensures |BaseOf(name)| <= 8 && |ExtOf(name)| <= 3 && NoSpace(BaseOf(name)) && NoSpace(ExtOf(name))
    ensures ToFatName(name) == Pad(BaseOf(name), 8) + Pad(ExtOf(name), 3)
  {
    hide Pad;
    UpperOfOk(BaseOf(name));
    UpperOfOk(ExtOf(name));
  }

  lemma {:induction false} JoinAtDot(name: Name)
    requires Fits83(name)
    ensures ExtOf(name) != [] ==> name == BaseOf(name) + [DOT] + ExtOf(name) && name[|name| - 1] != DOT
    ensures ExtOf(name) == [] ==> (BaseOf(name) == name <==> name[|name| - 1] != DOT)
  {
    var d := FirstDot(name);
    if ExtOf(name) != [] {
      assert OkIn83(name[|name| - 1]);
    } else if d == |name| {
      assert BaseOf(name) == name;
    } else {
      assert d == |name| - 1 && |BaseOf(name)| == d;
    }
  }

  /** An 8.3 name reads back exactly as it was written unless it ends in a dot. */
  lemma {:induction false} ShortNameRoundTrip(name: Name)
    requires Fits83(name)
    ensures FromFatName(ToFatName(name), 0) == name <==> name[|name| - 1] != DOT
  {
    hide ToFatName;
    hide FromFatName;
    ToPadded(name);
    FromPadded(BaseOf(name), ExtOf(name));
    JoinAtDot(name);
  }

  // ---------------------------------------------------------------- aliases for long names

  function LastDot(name: Name): (d: int)
    ensures -1 <= d < |name| && (d >= 0 ==> name[d] == DOT)
  {
    if name == [] then -1
    else if name[|name| - 1] == DOT then |name| - 1
    else LastDot(name[..|name| - 1])
  }

  function AliasChar(c: byte): (r: byte)
    ensures OkIn83(r)
  {
    if OkIn83(Upper(c)) then Upper(c) else UNDERSCORE
  }

  function AliasChars(s: Name): (r: seq<byte>)
    ensures forall i :: 0 <= i < |r| ==> OkIn83(r[i])
  {
    if s == [] then []
    else if s[0] == SPACE || s[0] == DOT then AliasChars(s[1..])
    else [AliasChar(s[0])] + AliasChars(s[1..])
  }

  /** Up to six characters from before the last dot; never empty. */
  function AliasBase(name: Name): (r: seq<byte>)
    ensures 1 <= |r| <= 6 && forall i :: 0 <= i < |r| ==> OkIn83(r[i])
  {
    var d := LastDot(name);
    var all := Take(AliasChars(if d >= 0 then name[..d] else name), 6);
    if all == [] then [UNDERSCORE] else all
  }

  function AliasExt(name: Name): (r: seq<byte>)
    ensures |r| <= 3
  {
    var d := LastDot(name);
    var rest := Take(if d >= 0 then name[d + 1..] else [], 3);
    seq(|rest|, i requires 0 <= i < |rest| => AliasChar(rest[i]))
  }

  function Digits(n: nat): (r: seq<byte>)
    requires 1 <= n < 1000
    ensures 1 <= |r| <= 3
  {
    if n < 10 then [48 + n]
    else if n < 100 then [48 + n / 10, 48 + n % 10]
    else [48 + n / 100, 48 + n / 10 % 10, 48 + n % 10]
  }

  /** Base, tilde, number; then the extension is laid over bytes 8 to 10. */
  function Candidate(base: seq<byte>, ext: seq<byte>, n: nat): (r: seq<byte>)
    requires 1 <= |base| <= 6 && |ext| <= 3 && 1 <= n < 1000
    requires forall i :: 0 <= i < |base| ==> OkIn83(base[i])
    ensures |r| == 11 && OkIn83(r[0])
  {
    var front := Pad(base + [TILDE] + Digits(n), 11);
    front[..8] + ext + front[8 + |ext|..]
  }

  /** The n-th alias tried for a name. */
  function AliasOf(name: Name, n: nat): (r: seq<byte>)
    requires 1 <= n < 1000
    ensures |r| == 11 && OkIn83(r[0])
  {
    Candidate(AliasBase(name), AliasExt(name), n)
  }

  /**
   The alias is unused among `taken`, unless all 999 candidates are taken, in which
   case the last one is returned all the same.
   */
  method MakeShortAlias(name: Name, taken: set<seq<byte>>) returns (alias: seq<byte>)
    ensures |alias| == 11 && OkIn83(alias[0])
    ensures exists n :: 1 <= n < 1000 && alias == AliasOf(name, n)
    ensures alias in taken ==> forall n :: 1 <= n < 1000 ==> AliasOf(name, n) in taken
  {
    hide AliasOf;
    var n := 1;
    alias := AliasOf(name, 1);
    while n < 1000
      invariant 1 <= n <= 1000
      invariant exists k :: 1 <= k < 1000 && alias == AliasOf(name, k)
      invariant forall k :: 1 <= k < n ==> AliasOf(name, k) in taken
    {
      alias := AliasOf(name, n);
      if alias !in taken {
        return;
      }
      n := n + 1;
    }
  }

  function LeadingDigit(n: nat): nat { if n < 10 then n else if n < 100 then n / 10 else n / 100 }

  /**
   With a full base and a full extension, the digits after the first are overwritten by
   the extension: only nine of the 999 candidates are different names.
   */
  lemma {:induction false} AliasTailSpills(base: seq<byte>, ext: seq<byte>, m: nat, n: nat)
    requires |base| == 6 && |ext| == 3 && 1 <= m < 1000 && 1 <= n < 1000
    requires forall i :: 0 <= i < |base| ==> OkIn83(base[i])
    ensures Candidate(base, ext, m) == Candidate(base, ext, n) <==> LeadingDigit(m) == LeadingDigit(n)
  {
    var fm, fn := Pad(base + [TILDE] + Digits(m), 11), Pad(base + [TILDE] + Digits(n), 11);
    assert fm[..8] == base + [TILDE, 48 + LeadingDigit(m)];
    assert fn[..8] == base + [TILDE, 48 + LeadingDigit(n)];
    assert Candidate(base, ext, m)[7] == 48 + LeadingDigit(m);
    assert Candidate(base, ext, n)[7] == 48 + LeadingDigit(n);
    assert Candidate(base, ext, m) == fm[..8] + ext && Candidate(base, ext, n) == fn[..8] + ext;
  }

  // ---------------------------------------------------------------- long names in slots

  function Checksum(name11: seq<byte>): byte {
    if name11 == [] then 0
    else
      var sum := Checksum(name11[..|name11| - 1]);
      (sum as int % 2 * 128 + sum as int / 2 + name11[|name11| - 1]) % 256
  }

  /** How many long-name slots a name of this length takes. */
  function LfnSlots(len: nat): nat { (len + LFN_CHARS - 1) / LFN_CHARS }

  /** Code unit `i` of the padded name: the characters, one terminator if there is room, then filler. */
  function NameUnit(name: Name, i: nat): Unit {
    if i < |name| then name[i] else if i == |name| then 0 else 0xFFFF
  }

  /** The thirteen units that slot `ord` carries. */
  function SlotUnits(name: Name, ord: nat): (r: seq<Unit>)
    requires ord >= 1
    ensures |r| == LFN_CHARS
  {
    seq<Unit>(LFN_CHARS, k requires 0 <= k => NameUnit(name, (ord - 1) * LFN_CHARS + k))
  }

  /** Read units until a terminator or filler; anything that is not ASCII becomes an underscore. */
  function ReadUnits(units: seq<Unit>, limit: nat): (r: Name)
    ensures |r| <= limit
  {
    if units == [] || limit == 0 || units[0] == 0 || units[0] == 0xFFFF then []
    else [if units[0] < 128 then units[0] else UNDERSCORE] + ReadUnits(units[1..], limit - 1)
  }

  predicate IsAscii(name: Name) { forall i :: 0 <= i < |name| ==> name[i] < 128 }

  function AsciiOrUnderscore(c: byte): byte { if c < 128 then c else UNDERSCORE }

  function UnitsFrom(name: Name, from: nat, count: nat): (r: seq<Unit>)
    ensures |r| == count
  {
    seq<Unit>(count, k requires 0 <= k => NameUnit(name, from + k))
  }

  lemma {:induction false} ReadUnitsBack(name: Name, from: nat, count: nat, limit: nat)
    requires IsCString(name) && from <= |name| <= from + count && |name| - from <= limit
    ensures var r := ReadUnits(UnitsFrom(name, from, count), limit);
            && |r| == |name| - from
            && forall i :: 0 <= i < |r| ==> r[i] == AsciiOrUnderscore(name[from + i])
    decreases count
  {
    assert count > 0 ==> UnitsFrom(name, from, count)[0] == NameUnit(name, from);
    if from < |name| {
      assert UnitsFrom(name, from, count)[1..] == UnitsFrom(name, from + 1, count - 1);
      ReadUnitsBack(name, from + 1, count - 1, limit - 1);
    }
  }

  /** A long name reads back exactly when it is ASCII. */
  lemma {:induction false} LongNameRoundTrip(name: Name)
    requires IsCString(name) && |name| <= NAME_MAX
    ensures ReadUnits(UnitsFrom(name, 0, LfnSlots(|name|) * LFN_CHARS), NAME_MAX) == name <==> IsAscii(name)
  {
    ReadUnitsBack(name, 0, LfnSlots(|name|) * LFN_CHARS, NAME_MAX);
    var r := ReadUnits(UnitsFrom(name, 0, LfnSlots(|name|) * LFN_CHARS), NAME_MAX);
    if !IsAscii(name) {
      var i :| 0 <= i < |name| && name[i] >= 128;
      assert r[i] != name[i];
    }
  }
}
