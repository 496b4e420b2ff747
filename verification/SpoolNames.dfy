/** Names and paths of the spool: the component rules of interop-file/src/path.rs and
    interop-contract/src/offer.rs, and the substring lookup by which
    interop-file/src/spool.rs finds the entry that belongs to a handle. */
module SpoolNames {
  import opened Prelude

  // ---------------------------------------------------------------- components

  const RESERVED: set<string> := {
    "CON", "PRN", "AUX", "NUL",
    "COM1", "COM2", "COM3", "COM4", "COM5", "COM6", "COM7", "COM8", "COM9",
    "LPT1", "LPT2", "LPT3", "LPT4", "LPT5", "LPT6", "LPT7", "LPT8", "LPT9"}

  function UpperAscii(s: string): string {
    seq(|s|, i requires 0 <= i < |s| => if 'a' <= s[i] <= 'z' then s[i] - 'a' + 'A' else s[i])
  }

  /** The part before the first dot. */
  function Stem(s: string): string {
    if s == "" || s[0] == '.' then "" else [s[0]] + Stem(s[1..])
  }

  /** A name that may become one path component on disk. */
  predicate SafeComponent(c: string) {
    && c != "" && c != "." && c != ".." && |c| <= 255
    && (forall i :: 0 <= i < |c| ==> c[i] >= ' ' && c[i] != '/' && c[i] != '\\' && c[i] != ':')
    && UpperAscii(Stem(c)) !in RESERVED
  }

  /** The shape an offer entry is held to: laxer on reserved names and colons, but the
      delete character, which `SafeComponent` lets through, is refused. */
  predicate OfferComponent(c: string) {
    && c != "" && c != "." && c != ".." && |c| <= 255
    && (forall i :: 0 <= i < |c| ==> c[i] >= ' ' && c[i] != '\U{007F}' && c[i] != '/' && c[i] != '\\')
  }

  /** Directory components, then the display name. */
  function Components(parent: Option<seq<string>>, name: string): (p: seq<string>)
    ensures |p| >= 1
  {
    (if parent.Some? then parent.value else []) + [name]
  }

  predicate Sanitary(parent: Option<seq<string>>, name: string) {
    forall i :: 0 <= i < |Components(parent, name)| ==> SafeComponent(Components(parent, name)[i])
  }

  predicate ValidOffer(parent: Option<seq<string>>, name: string) {
    forall i :: 0 <= i < |Components(parent, name)| ==> OfferComponent(Components(parent, name)[i])
  }

  /** The two rules differ on sane names by exactly one character. */
  lemma OfferRefusesOnlyDelete(c: string)
    requires SafeComponent(c)
    ensures OfferComponent(c) <==> '\U{007F}' !in c
  {
    if '\U{007F}' in c {
      var i :| 0 <= i < |c| && c[i] == '\U{007F}';
    }
  }

  /** A path as one string, and that string taken apart at every separator. */
  function Joined(path: seq<string>): string {
    if path == [] then "" else if |path| == 1 then path[0] else path[0] + "/" + Joined(path[1..])
  }

  function TakenApart(s: string): (path: seq<string>)
    ensures |path| >= 1
  {
    if s == "" then [""]
    else
      var rest := TakenApart(s[1..]);
      if s[0] == '/' || s[0] == '\\' then [""] + rest else [[s[0]] + rest[0]] + rest[1..]
  }

  lemma {:induction false} TakenApartFront(c: string, rest: string)
    requires forall i :: 0 <= i < |c| ==> c[i] != '/' && c[i] != '\\'
    ensures TakenApart(c + rest) == [c + TakenApart(rest)[0]] + TakenApart(rest)[1..]
    decreases |c|
  {
    if c == "" {
      assert c + rest == rest;
      assert c + TakenApart(rest)[0] == TakenApart(rest)[0];
      HeadTail(TakenApart(rest));
    } else {
      Extend(c, 1, rest);
      TakenApartFront(c[1..], rest);
      assert (c + rest)[0] == c[0];
      assert [c[0]] + (c[1..] + TakenApart(rest)[0]) == c + TakenApart(rest)[0];
    }
  }

  /** A safe path stays below its root: joined and taken apart again it is the same path, and none
      of its parts is empty or goes to the directory itself or up. */
  lemma {:induction false} SafePathStaysBelow(path: seq<string>)
    requires path != [] && forall i :: 0 <= i < |path| ==> SafeComponent(path[i])
    ensures TakenApart(Joined(path)) == path
    ensures "" !in path && "." !in path && ".." !in path
    decreases |path|
  {
    hide UpperAscii, Stem;
    if |path| == 1 {
      TakenApartFront(path[0], "");
      AppendNothing(path[0]);
    } else {
      SafePathStaysBelow(path[1..]);
      var tail := "/" + Joined(path[1..]);
      TakenApartFront(path[0], tail);
      assert tail[1..] == Joined(path[1..]);
      assert path[0] + "/" + Joined(path[1..]) == path[0] + tail;
      assert TakenApart(tail) == [""] + path[1..];
      AppendNothing(path[0]);
    }
  }

  lemma {:induction false} StemStops(c: string, rest: string)
    requires '.' !in c && (rest == "" || rest[0] == '.')
    ensures Stem(c + rest) == c
    decreases |c|
  {
    if c == "" {
      assert c + rest == rest;
    } else {
      Extend(c, 1, rest);
      StemStops(c[1..], rest);
      HeadTail(c);
    }
  }

  lemma ReservedHaveNoDot(c: string)
    requires UpperAscii(c) in RESERVED
    ensures '.' !in c
  {
    var u := UpperAscii(c);
    assert forall i :: 0 <= i < |c| && c[i] == '.' ==> u[i] == '.';
    assert |u| == |c|;
    assert u in {"CON", "PRN", "AUX", "NUL"} || u[..3] == "COM" || u[..3] == "LPT";
    assert |u| == 3 || (|u| == 4 && '1' <= u[3] <= '9');
  }

  /** The names of devices are refused in whatever case, with or without an extension. */
  lemma ReservedRefused(c: string, extension: string)
    requires UpperAscii(c) in RESERVED
    ensures !SafeComponent(c) && !SafeComponent(c + "." + extension)
  {
    hide UpperAscii, RESERVED;
    ReservedHaveNoDot(c);
    StemStops(c, "");
    AppendNothing(c);
    StemStops(c, "." + extension);
    Assoc(c, ".", extension);
  }

  // ---------------------------------------------------------------- temporary names

  const DOT_TMP: string := ".tmp-"

  function TempName(handle: nat, entryId: string): string {
    DOT_TMP + Decimal(handle) + "-" + entryId
  }

  /** What the lookup searches for. */
  function Needle(handle: nat): string {
    DOT_TMP + Decimal(handle) + "-"
  }

  /** Everything in front of the file name when a name is joined to the root. */
  function RootPrefix(root: string): string {
    if root == "" || root[|root| - 1] == '/' then root else root + "/"
  }

  function TempPath(root: string, handle: nat, entryId: string): string {
    RootPrefix(root) + TempName(handle, entryId)
  }

  predicate OccursAt(s: string, p: string, i: nat) {
    i + |p| <= |s| && s[i..i + |p|] == p
  }

  predicate Contains(s: string, p: string) {
    exists i :: 0 <= i <= |s| && OccursAt(s, p, i)
  }

  predicate Dotless(s: string) {
    forall i :: 0 <= i < |s| ==> s[i] != '.'
  }

  lemma NeedleChars(handle: nat)
    ensures |Needle(handle)| >= 7 && Needle(handle)[0] == '.'
    ensures forall i :: 0 <= i < |Needle(handle)| ==> Needle(handle)[i] != '/'
  {
  }

  lemma TempNameDots(handle: nat, entryId: string)
    requires Dotless(entryId)
    ensures TempName(handle, entryId) == Needle(handle) + entryId
    ensures forall i :: 0 < i < |TempName(handle, entryId)| ==> TempName(handle, entryId)[i] != '.'
  {
    var n := Needle(handle);
    assert forall i :: 0 < i < |n| ==> n[i] != '.';
  }

  /** A numeral is delimited by the dash that follows it. */
  lemma NumeralDelimited(a: nat, b: nat, more: string)
    requires OccursAt(Decimal(b) + "-" + more, Decimal(a) + "-", 0)
    ensures a == b
  {
    var x, y := Decimal(a), Decimal(b);
    var s := y + "-" + more;
    assert s[..|x| + 1] == x + "-";
    assert s[|x|] == '-';
    assert s[|y|] == '-';
    assert forall i :: 0 <= i < |x| ==> s[i] == (x + "-")[i] == x[i];
    assert forall i :: 0 <= i < |y| ==> s[i] == y[i];
    assert |x| == |y|;
    assert x == s[..|x|] == y;
    DecimalInjective(a, b);
  }

  lemma NeedleInOwnName(h: nat, handle: nat, entryId: string)
    requires OccursAt(TempName(handle, entryId), Needle(h), 0)
    ensures h == handle
  {
    var s, p := TempName(handle, entryId), Needle(h);
    assert s[5..] == Decimal(handle) + "-" + entryId;
    assert p[5..] == Decimal(h) + "-";
    assert s[5..][..|p| - 5] == s[..|p|][5..];
    NumeralDelimited(h, handle, entryId);
  }

  lemma NeedleOnlyThere(pre: string, handle: nat, entryId: string, h: nat)
    requires Dotless(entryId) && (pre == "" || pre[|pre| - 1] == '/')
    requires Contains(pre + TempName(handle, entryId), Needle(h))
    ensures Contains(pre, Needle(h)) || h == handle
  {
    var name, p := TempName(handle, entryId), Needle(h);
    NeedleChars(h);
    hide TempName, Needle;
    var i: nat :| i <= |pre + name| && OccursAt(pre + name, p, i);
    OccurrenceInPath(pre, name, p, i, handle, entryId);
    if i == |pre| && OccursAt(name, p, 0) {
      NeedleInOwnName(h, handle, entryId);
    }
  }

  lemma NeedleInRoot(pre: string, name: string, p: string)
    requires Contains(pre, p)
    ensures Contains(pre + name, p)
  {
    var i: nat :| i <= |pre| && OccursAt(pre, p, i);
    assert (pre + name)[i..i + |p|] == p;
    assert OccursAt(pre + name, p, i);
  }

  lemma NeedleInName(pre: string, handle: nat, entryId: string)
    requires Dotless(entryId)
    ensures Contains(pre + TempName(handle, entryId), Needle(handle))
  {
    TempNameDots(handle, entryId);
    var p := Needle(handle);
    hide Needle;
    assert (pre + (p + entryId))[|pre|..|pre| + |p|] == p;
    assert OccursAt(pre + (p + entryId), p, |pre|);
  }

  /** Where the searched text can stand in the path of an entry: in the root, or at the
      head of the temporary name of exactly that handle. */
  lemma NeedleInPath(root: string, handle: nat, entryId: string, h: nat)
    requires Dotless(entryId)
    ensures Contains(TempPath(root, handle, entryId), Needle(h)) <==>
            Contains(RootPrefix(root), Needle(h)) || h == handle
  {
    hide TempName, Needle, Contains;
    var pre := RootPrefix(root);
    if Contains(pre + TempName(handle, entryId), Needle(h)) {
      NeedleOnlyThere(pre, handle, entryId, h);
    }
    if Contains(pre, Needle(h)) {
      NeedleInRoot(pre, TempName(handle, entryId), Needle(h));
    }
    NeedleInName(pre, handle, entryId);
  }

  lemma OccurrenceInPath(pre: string, name: string, p: string, i: nat, handle: nat, entryId: string)
    requires Dotless(entryId) && name == TempName(handle, entryId)
    requires pre == "" || pre[|pre| - 1] == '/'
    requires |p| > 0 && p[0] == '.' && forall j :: 0 <= j < |p| ==> p[j] != '/'
    requires OccursAt(pre + name, p, i)
    ensures (i == |pre| && OccursAt(name, p, 0)) || Contains(pre, p)
  {
    TempNameDots(handle, entryId);
    assert (pre + name)[i] == p[0];
    if i >= |pre| {
      assert name[i - |pre|] == '.';
      assert i == |pre|;
      assert name[..|p|] == (pre + name)[i..i + |p|];
    } else if i + |p| <= |pre| {
      assert pre[i..i + |p|] == (pre + name)[i..i + |p|];
      assert OccursAt(pre, p, i);
    } else {
      CharAt(pre + name, p, i, |pre| - 1);
      assert false;
    }
  }

  lemma CharAt(s: string, p: string, i: nat, k: nat)
    requires OccursAt(s, p, i) && i <= k < i + |p|
    ensures p[k - i] == s[k]
  {
    assert s[i..i + |p|][k - i] == s[k];
  }
}
