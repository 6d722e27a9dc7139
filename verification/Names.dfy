/** The table of interned file names: NUL-terminated strings in one 8 KiB array.  An inode
    holds the offset of its name; equal names, and suffixes of names, share storage. */
module Names {
  import opened Blocks

  /** The C string that starts at offset a. */
  function StringAt(names: seq<char>, a: nat): string
    decreases |names| - a
  {
    if a < |names| && names[a] != '\0' then [names[a]] + StringAt(names, a + 1) else ""
  }

  predicate IsName(s: string) {
    s != "" && '\0' !in s
  }

  /** Two NULs in a row: the end of the used part. */
  predicate EndsAt(names: seq<char>, i: nat) {
    i + 1 < |names| && names[i] == '\0' && names[i + 1] == '\0'
  }

  ghost predicate WellFormed(names: seq<char>) {
    && |names| == BLOCK_BYTES
    && names[|names| - 1] == '\0'
    && forall i: nat, j: nat :: EndsAt(names, i) && i <= j < |names| ==> names[j] == '\0'
  }

  datatype Place = Found(at: nat) | Append(at: nat) | NoSpace

  /** Where the scan of the table from offset i on finds or puts a name. */
  function PlaceFor(names: seq<char>, name: string, i: nat): (p: Place)
    ensures p.Found? ==> i <= p.at < |names| && StringAt(names, p.at) == name
    ensures p.Append? ==> i < p.at && p.at + |name| < |names| && EndsAt(names, p.at - 1)
    ensures p.Append? ==> forall j :: i <= j < p.at - 1 ==> !EndsAt(names, j)
    decreases |names| - i
  {
    if i + 1 >= |names| then NoSpace
    else if StringAt(names, i) == name then Found(i)
    else if EndsAt(names, i) then
      if i + 1 + |name| < |names| then Append(i + 1) else NoSpace
    else PlaceFor(names, name, i + 1)
  }

  /** The table after interning a name: unchanged when the name was there already. */
  function Interned(names: seq<char>, name: string): (r: seq<char>)
    requires !PlaceFor(names, name, 0).NoSpace?
    ensures |r| == |names|
  {
    var p := PlaceFor(names, name, 0);
    if p.Found? then names else Splice(names, p.at, name + ['\0'])
  }

  lemma {:induction false} StringAtWritten(names: seq<char>, a: nat, name: string)
    requires '\0' !in name
    requires a + |name| < |names|
    requires names[a..a + |name|] == name && names[a + |name|] == '\0'
    ensures StringAt(names, a) == name
    decreases |name|
  {
    if name != "" {
      assert names[a] == name[0];
      assert names[a + 1..a + 1 + |name[1..]|] == name[1..];
      StringAtWritten(names, a + 1, name[1..]);
    }
  }

  lemma {:induction false} StringAtSame(names: seq<char>, other: seq<char>, a: nat, e: nat)
    requires a <= e < |names| && e < |other|
    requires names[e] == '\0' && names[..e + 1] == other[..e + 1]
    ensures StringAt(names, a) == StringAt(other, a)
    decreases e - a
  {
    assert names[a] == names[..e + 1][a] == other[..e + 1][a] == other[a];
    if names[a] != '\0' {
      StringAtSame(names, other, a + 1, e);
    }
  }

  lemma InternKeepsForm(names: seq<char>, name: string)
    requires WellFormed(names) && IsName(name)
    requires PlaceFor(names, name, 0).Append?
    ensures WellFormed(Interned(names, name))
  {
    var p, names' := PlaceFor(names, name, 0), Interned(names, name);
    var e := p.at - 1;
    assert forall i :: p.at <= i < p.at + |name| ==> names'[i] == name[i - p.at] && name[i - p.at] != '\0';
    forall k: nat | k < e
      ensures !EndsAt(names', k)
    {
      assert names'[k] == names[k] && names'[k + 1] == names[k + 1] && !EndsAt(names, k);
    }
    forall i: nat, j: nat | EndsAt(names', i) && i <= j < |names'|
      ensures names'[j] == '\0'
    {
      assert names'[e + 1] != '\0' && i != e;
      assert i >= p.at + |name|;
      assert names[j] == '\0';
    }
  }

  /** Interning gives the name an offset at which it reads back, changes no name that was in
      the table, and keeps the table well formed. */
  lemma InternKeepsNames(names: seq<char>, name: string)
    requires WellFormed(names) && IsName(name)
    requires !PlaceFor(names, name, 0).NoSpace?
    ensures StringAt(Interned(names, name), PlaceFor(names, name, 0).at) == name
    ensures forall a: nat :: StringAt(names, a) != "" ==>
      StringAt(Interned(names, name), a) == StringAt(names, a)
    ensures WellFormed(Interned(names, name))
  {
    var p, names' := PlaceFor(names, name, 0), Interned(names, name);
    if p.Append? {
      hide WellFormed;
      InternKeepsForm(names, name);
      var e := p.at - 1;
      assert names'[p.at..p.at + |name|] == name;
      StringAtWritten(names', p.at, name);
      assert names'[..e + 1] == names[..e + 1];
      forall a: nat | StringAt(names, a) != ""
        ensures StringAt(names', a) == StringAt(names, a)
      {
        assert a < |names| && names[a] != '\0';
        assert a < e;
        StringAtSame(names, names', a, e);
      }
    }
  }

  /** strcmp against the string at an offset of the table, as an equality test. */
  method SameString(names: array<char>, a: nat, s: string) returns (same: bool)
    requires a < names.Length && names[names.Length - 1] == '\0' && '\0' !in s
    ensures same <==> StringAt(names[..], a) == s
  {
    var i := 0;
    while a + i < names.Length && names[a + i] != '\0' && i < |s| && names[a + i] == s[i]
      invariant 0 <= i <= |s| && a + i < names.Length
      invariant (StringAt(names[..], a) == s) == (StringAt(names[..], a + i) == s[i..])
      decreases |s| - i
    {
      assert s[i..] == [s[i]] + s[i + 1..];
      i := i + 1;
    }
    if i < |s| { assert s[i] == s[i..][0]; }
    same := names[a + i] == '\0' && i == |s|;
  }

  /** strcpy into the table. */
  method CopyString(names: array<char>, at: nat, name: string)
    requires at + |name| < names.Length
    modifies names
    ensures names[..] == Splice(old(names[..]), at, name + ['\0'])
  {
    ghost var before := names[..];
    var k := 0;
    while k < |name|
      invariant 0 <= k <= |name|
      invariant forall j :: 0 <= j < names.Length ==>
        names[j] == if at <= j < at + k then name[j - at] else before[j]
    {
      names[at + k] := name[k];
      k := k + 1;
    }
    names[at + k] := '\0';
    assert names[..] == Splice(before, at, name + ['\0']);
  }

  /** The scanning loop that interns a name when a file is created. */
  method Intern(names: array<char>, name: string) returns (p: Place)
    requires WellFormed(names[..]) && IsName(name)
    modifies names
    ensures p == PlaceFor(old(names[..]), name, 0)
    ensures names[..] == if p.NoSpace? then old(names[..]) else Interned(old(names[..]), name)
  {
    ghost var before := names[..];
    var i := 0;
    while i + 1 < names.Length
      invariant 0 <= i < names.Length && names[..] == before
      invariant PlaceFor(before, name, 0) == PlaceFor(before, name, i)
    {
      var same := SameString(names, i, name);
      if same {
        return Found(i);
      }
      if names[i] == '\0' && names[i + 1] == '\0' {
        if i + 1 + |name| >= names.Length {
          return NoSpace;
        }
        CopyString(names, i + 1, name);
        return Append(i + 1);
      }
      i := i + 1;
    }
    return NoSpace;
  }
}
