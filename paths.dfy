/** Windows path handling as Python's `ntpath` module does it (`splitdrive`
    and two-argument `join`), on paths held as the UTF-8 bytes of the `str`.
    Every separator, colon and underscore is ASCII, so byte positions and
    character positions pick out the same pieces. */
module Paths {
  import opened Bytes
  import opened Outcome

  const BACKSLASH: Byte := 0x5C
  const SLASH: Byte := 0x2F
  const COLON: Byte := 0x3A
  const UNDERSCORE: Byte := 0x5F
  const SPACE: Byte := 0x20

  predicate IsSep(b: Byte) {
    b == BACKSLASH || b == SLASH
  }

  /** The number of bytes of the UTF-8 character led by `lead`. */
  function CharWidth(lead: Byte): (n: nat)
    ensures 1 <= n <= 4
  {
    if lead < 0xC0 then 1 else if lead < 0xE0 then 2 else if lead < 0xF0 then 3 else 4
  }

  /** `s.find(b, start)` for a one-character needle. */
  function Find(s: seq<Byte>, b: Byte, start: nat): (r: Option<nat>)
    ensures r.Some? ==> start <= r.value < |s| && s[r.value] == b
    ensures r.Some? ==> forall j :: start <= j < r.value ==> s[j] != b
    ensures r.None? ==> forall j :: start <= j < |s| ==> s[j] != b
    decreases |s| - start
  {
    if start >= |s| then None
    else if s[start] == b then Some(start)
    else Find(s, b, start + 1)
  }

  /** `s.replace(a, b)` for one-character `a` and `b`. */
  function Replace(s: seq<Byte>, a: Byte, b: Byte): (r: seq<Byte>)
    ensures |r| == |s|
    ensures forall i :: 0 <= i < |s| ==> r[i] == (if s[i] == a then b else s[i])
  {
    seq(|s|, i requires 0 <= i < |s| => if s[i] == a then b else s[i])
  }

  /** `ntpath.splitdrive`: a character and a colon, or the `\\server\share`
      head of a UNC path; otherwise the drive is empty. */
  function SplitDrive(p: seq<Byte>): (r: (seq<Byte>, seq<Byte>))
    ensures r.0 + r.1 == p
    ensures r.0 != [] && r.0[|r.0| - 1] != COLON ==> r.1 == [] || IsSep(r.1[0])
    ensures |p| >= 2 && !IsSep(p[0]) && CharWidth(p[0]) < |p| && p[CharWidth(p[0])] != COLON ==> r.0 == []
  {
    if |p| < 2 then ([], p)
    else
      var normp := Replace(p, SLASH, BACKSLASH);
      if normp[0] == BACKSLASH && normp[1] == BACKSLASH && (|p| == 2 || normp[2] != BACKSLASH) then
        match Find(normp, BACKSLASH, 2)
        case None => ([], p)
        case Some(index) =>
          match Find(normp, BACKSLASH, index + 1)
          case None => (p, [])
          case Some(index2) => if index2 == index + 1 then ([], p) else (p[..index2], p[index2..])
      else
        var w := CharWidth(p[0]);
        if w < |p| && p[w] == COLON then (p[..w + 1], p[w + 1..]) else ([], p)
  }

  /** `ntpath.join(a, b)`. An absolute `b` replaces the path of `a`; a `b`
      on another drive replaces `a` altogether; otherwise `b` is appended
      after one separator. */
  function Join(a: seq<Byte>, b: seq<Byte>): (r: seq<Byte>)
  {
    JoinSplit(SplitDrive(a), SplitDrive(b))
  }

  /** `join` on the two paths split at their drives. */
  function JoinSplit(a: (seq<Byte>, seq<Byte>), b: (seq<Byte>, seq<Byte>)): (r: seq<Byte>)
  {
    var (ad, ap) := a;
    var (bd, bp) := b;
    if bp != [] && IsSep(bp[0]) then
      JoinTail(if bd != [] || ad == [] then bd else ad, bp)
    else if bd != [] && bd != ad && Lower(bd) != Lower(ad) then
      JoinTail(bd, bp)
    else
      JoinTail(if bd != [] then bd else ad,
               (if ap != [] && !IsSep(ap[|ap| - 1]) then ap + [BACKSLASH] else ap) + bp)
  }

  /** The last step of `join`: a separator between a UNC drive and a
      relative path. */
  function JoinTail(drive: seq<Byte>, path: seq<Byte>): (r: seq<Byte>)
    ensures r == drive + path || r == drive + [BACKSLASH] + path
  {
    if path != [] && !IsSep(path[0]) && drive != [] && drive[|drive| - 1] != COLON then
      drive + [BACKSLASH] + path
    else drive + path
  }

  /** Joining never alters a second component that has no drive: it is
      always the tail of the result. */
  lemma {:induction false} JoinKeepsTail(a: seq<Byte>, b: seq<Byte>)
    requires SplitDrive(b).0 == []
    ensures |b| <= |Join(a, b)| && Join(a, b)[|Join(a, b)| - |b|..] == b
  {
    var (ad, ap) := SplitDrive(a);
    assert SplitDrive(b) == ([], b);
    JoinSplitKeepsTail(ad, ap, b);
  }

  lemma {:induction false} JoinSplitKeepsTail(ad: seq<Byte>, ap: seq<Byte>, b: seq<Byte>)
    ensures var r := JoinSplit((ad, ap), ([], b));
      |b| <= |r| && r[|r| - |b|..] == b
  {
  }

  /** The ordinary case: a relative `b` goes after `a` with exactly one
      separator between them. */
  lemma {:induction false} JoinRelative(a: seq<Byte>, b: seq<Byte>)
    requires SplitDrive(b).0 == [] && (b == [] || !IsSep(b[0]))
    requires SplitDrive(a).1 != []
    ensures Join(a, b) == if IsSep(a[|a| - 1]) then a + b else a + [BACKSLASH] + b
  {
    var (ad, ap) := SplitDrive(a);
    assert SplitDrive(b) == ([], b);
    JoinSplitRelative(ad, ap, b);
  }

  lemma {:induction false} JoinSplitRelative(ad: seq<Byte>, ap: seq<Byte>, b: seq<Byte>)
    requires b == [] || !IsSep(b[0])
    requires ap != []
    requires ad != [] && ad[|ad| - 1] != COLON ==> IsSep(ap[0])
    ensures JoinSplit((ad, ap), ([], b)) ==
      if IsSep(ap[|ap| - 1]) then ad + ap + b else ad + ap + [BACKSLASH] + b
  {
    var ap' := if !IsSep(ap[|ap| - 1]) then ap + [BACKSLASH] else ap;
    var path := ap' + b;
    assert JoinSplit((ad, ap), ([], b)) == JoinTail(ad, path);
    assert path[0] == ap[0];
    assert JoinTail(ad, path) == ad + path;
  }

  /** An absolute `b` keeps only the drive of `a`. */
  lemma {:induction false} JoinAbsolute(a: seq<Byte>, b: seq<Byte>)
    requires b != [] && IsSep(b[0]) && SplitDrive(b).0 == []
    ensures Join(a, b) == SplitDrive(a).0 + b
  {
    assert SplitDrive(b) == ([], b);
  }

  /** The output base name of the table converters: the path without its
      drive, every `\` and `/` turned into `_`, and one leading `_` dropped.
      The path is taken as already normalised. */
  function OutputBaseName(path: seq<Byte>): (r: seq<Byte>)
    ensures forall i :: 0 <= i < |r| ==> !IsSep(r[i])
  {
    BaseOf(SplitDrive(path).1)
  }

  /** The drive-less part flattened, less one leading underscore. */
  function BaseOf(rest: seq<Byte>): (r: seq<Byte>)
    ensures forall i :: 0 <= i < |r| ==> !IsSep(r[i])
  {
    var flat := Replace(Replace(rest, BACKSLASH, UNDERSCORE), SLASH, UNDERSCORE);
    if flat != [] && flat[0] == UNDERSCORE then flat[1..] else flat
  }

  /** What a separator or any other byte of the path becomes. */
  function Flatten(b: Byte): Byte {
    if IsSep(b) then UNDERSCORE else b
  }

  /** Each byte of the base name is the flattened byte of the drive-less
      path at the same place, shifted by one when that path began with a
      separator or an underscore. */
  lemma {:induction false} OutputBaseNameBytes(path: seq<Byte>)
    ensures var rest := SplitDrive(path).1;
      var k := if rest != [] && Flatten(rest[0]) == UNDERSCORE then 1 else 0;
      |OutputBaseName(path)| == |rest| - k &&
      forall i :: 0 <= i < |OutputBaseName(path)| ==> OutputBaseName(path)[i] == Flatten(rest[i + k])
  {
    BaseOfBytes(SplitDrive(path).1);
  }

  lemma {:induction false} BaseOfBytes(rest: seq<Byte>)
    ensures var k := if rest != [] && Flatten(rest[0]) == UNDERSCORE then 1 else 0;
      |BaseOf(rest)| == |rest| - k &&
      forall i :: 0 <= i < |BaseOf(rest)| ==> BaseOf(rest)[i] == Flatten(rest[i + k])
  {
    var flat := Replace(Replace(rest, BACKSLASH, UNDERSCORE), SLASH, UNDERSCORE);
    forall i | 0 <= i < |rest|
      ensures flat[i] == Flatten(rest[i])
    {
    }
    var k := if rest != [] && Flatten(rest[0]) == UNDERSCORE then 1 else 0;
    var r := BaseOf(rest);
    assert r == flat[k..];
    forall i | 0 <= i < |r|
      ensures r[i] == Flatten(rest[i + k])
    {
      assert r[i] == flat[i + k];
    }
  }

  const DOT: Byte := 0x2E

  /** The index of the last separator in `s[..end]`, or -1: the larger of
      the two `rfind`s `ntpath` makes. */
  function LastSep(s: seq<Byte>, end: nat): (i: int)
    requires end <= |s|
    ensures -1 <= i < end
    ensures i >= 0 ==> IsSep(s[i])
    ensures forall j :: i < j < end ==> !IsSep(s[j])
  {
    if end == 0 then -1 else if IsSep(s[end - 1]) then end - 1 else LastSep(s, end - 1)
  }

  /** The contract of `LastSep` pins the index down. */
  lemma {:induction false} LastSepIs(s: seq<Byte>, i: int)
    requires -1 <= i < |s| && (i >= 0 ==> IsSep(s[i]))
    requires forall j :: i < j < |s| ==> !IsSep(s[j])
    ensures LastSep(s, |s|) == i
  {
  }

  /** `s.rfind(b, 0, end)`, -1 when `b` does not occur. */
  function LastIndex(s: seq<Byte>, b: Byte, end: nat): (i: int)
    requires end <= |s|
    ensures -1 <= i < end
    ensures i >= 0 ==> s[i] == b
    ensures forall j :: i < j < end ==> s[j] != b
  {
    if end == 0 then -1 else if s[end - 1] == b then end - 1 else LastIndex(s, b, end - 1)
  }

  /** Some byte of `s[from..to]` is not a dot. */
  predicate NotAllDots(s: seq<Byte>, from: int, to: int)
    requires 0 <= from && to <= |s|
  {
    exists j :: from <= j < to && s[j] != DOT
  }

  /** `ntpath.splitext`: the extension starts at the last dot after the last
      separator, unless everything between that separator and the dot is
      dots too; otherwise there is no extension. */
  function SplitExt(p: seq<Byte>): (r: (seq<Byte>, seq<Byte>))
    ensures r.0 + r.1 == p
    ensures r.1 == [] || r.1[0] == DOT
  {
    var sepIndex := LastSep(p, |p|);
    var dotIndex := LastIndex(p, DOT, |p|);
    if dotIndex > sepIndex && NotAllDots(p, sepIndex + 1, dotIndex) then (p[..dotIndex], p[dotIndex..])
    else (p, [])
  }

  /** A name ending in an extension with no dot or separator in it, after a
      file name that does not start with a dot, splits at that
      extension. */
  lemma {:induction false} SplitExtAt(head: seq<Byte>, file: seq<Byte>, ext: seq<Byte>)
    requires head == [] || IsSep(head[|head| - 1])
    requires forall i :: 0 <= i < |file| ==> !IsSep(file[i])
    requires file != [] && file[0] != DOT
    requires ext != [] && ext[0] == DOT
    requires forall i :: 0 < i < |ext| ==> !IsSep(ext[i]) && ext[i] != DOT
    ensures SplitExt(head + file + ext) == (head + file, ext)
  {
    var p := head + file + ext;
    var n := |head| + |file|;
    assert p[n] == DOT;
    assert forall j :: n < j < |p| ==> p[j] == ext[j - n];
    assert LastIndex(p, DOT, |p|) == n;
    assert forall j :: |head| <= j < n ==> p[j] == file[j - |head|];
    assert forall j :: |head| <= j < |p| ==> !IsSep(p[j]);
    LastSepIs(p, |head| - 1);
    assert p[|head|] == file[0];
    assert NotAllDots(p, |head|, n);
    assert p[..n] == head + file;
    assert p[n..] == ext;
  }

  /** `s` with its trailing separators stripped (`rstrip` of both). */
  function StripSeps(s: seq<Byte>): (r: seq<Byte>)
    ensures |r| <= |s| && r == s[..|r|]
    ensures r == [] || !IsSep(r[|r| - 1])
    ensures forall j :: |r| <= j < |s| ==> IsSep(s[j])
  {
    if s != [] && IsSep(s[|s| - 1]) then StripSeps(s[..|s| - 1]) else s
  }

  /** `ntpath.split`: the drive and the path up to its last separator (less
      trailing separators, unless that leaves nothing), and the rest. */
  function Split(p: seq<Byte>): (r: (seq<Byte>, seq<Byte>))
    ensures forall j :: 0 <= j < |r.1| ==> !IsSep(r.1[j])
  {
    SplitPath(SplitDrive(p).0, SplitDrive(p).1)
  }

  /** `split` once the drive `d` is off the path `rest`. */
  function SplitPath(d: seq<Byte>, rest: seq<Byte>): (r: (seq<Byte>, seq<Byte>))
    ensures forall j :: 0 <= j < |r.1| ==> !IsSep(r.1[j])
  {
    var i := LastSep(rest, |rest|) + 1;
    var head := rest[..i];
    var stripped := StripSeps(head);
    (d + (if stripped != [] then stripped else head), rest[i..])
  }

  /** `ntpath.basename`. */
  function BaseName(p: seq<Byte>): (r: seq<Byte>)
    ensures forall j :: 0 <= j < |r| ==> !IsSep(r[j])
  {
    Split(p).1
  }

  /** `ntpath.dirname`. */
  function DirName(p: seq<Byte>): (r: seq<Byte>) {
    Split(p).0
  }

  /** A path with no drive is its directory part, a separator and its file
      name, when the file name holds no separator and the directory part
      ends in none. */
  lemma {:induction false} SplitAt(dir: seq<Byte>, file: seq<Byte>)
    requires SplitDrive(dir + [BACKSLASH] + file).0 == []
    requires dir != [] && !IsSep(dir[|dir| - 1])
    requires forall i :: 0 <= i < |file| ==> !IsSep(file[i])
    ensures BaseName(dir + [BACKSLASH] + file) == file
    ensures DirName(dir + [BACKSLASH] + file) == dir
  {
    var p := dir + [BACKSLASH] + file;
    assert SplitDrive(p).1 == p;
    SplitPathAt(dir, file);
  }

  lemma {:induction false} SplitPathAt(dir: seq<Byte>, file: seq<Byte>)
    requires dir != [] && !IsSep(dir[|dir| - 1])
    requires forall i :: 0 <= i < |file| ==> !IsSep(file[i])
    ensures SplitPath([], dir + [BACKSLASH] + file) == (dir, file)
  {
    var p := dir + [BACKSLASH] + file;
    var n := |dir|;
    var head := dir + [BACKSLASH];
    assert p[n] == BACKSLASH;
    assert forall j :: n < j < |p| ==> p[j] == file[j - n - 1];
    LastSepIs(p, n);
    assert p[..n + 1] == head;
    assert head[..n] == dir;
    assert StripSeps(head) == StripSeps(dir) == dir;
    assert p[n + 1..] == file;
    var empty: seq<Byte> := [];
    assert empty + dir == dir;
  }

  /** A path that starts with an ASCII byte other than a separator, not
      followed by a colon, has no drive. */
  lemma {:induction false} NoDrive(p: seq<Byte>)
    requires p != [] && !IsSep(p[0]) && p[0] < 0x80
    requires |p| >= 2 ==> p[1] != COLON
    ensures SplitDrive(p) == ([], p)
  {
    if |p| >= 2 {
      assert Replace(p, SLASH, BACKSLASH)[0] == p[0];
    }
  }
}
