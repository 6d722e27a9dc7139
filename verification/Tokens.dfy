/** strtok, with its static cursor, and the component list of a path. */
module Tokens {

  /** The first position at or after k that holds a separator, or the length. */
  function NextSeparator(s: string, separators: string, k: nat): (r: nat)
    requires k <= |s|
    ensures k <= r <= |s|
    ensures r < |s| ==> s[r] in separators
    ensures forall j :: k <= j < r ==> s[j] !in separators
    decreases |s| - k
  {
    if k < |s| && s[k] !in separators then NextSeparator(s, separators, k + 1) else k
  }

  /** The token strtok hands out from a non-empty string: the first character is never
      inspected, so an empty component is not skipped but swallows its separator. */
  function FirstToken(s: string, separators: string): string
    requires s != ""
  {
    s[..NextSeparator(s, separators, 1)]
  }

  function AfterToken(s: string, separators: string): (r: string)
    requires s != ""
    ensures |r| < |s|
  {
    var k := NextSeparator(s, separators, 1);
    if k < |s| then s[k + 1..] else ""
  }

  /** What draining strtok yields. */
  function Drain(s: string, separators: string): seq<string>
    decreases |s|
  {
    if s == "" then [] else [FirstToken(s, separators)] + Drain(AfterToken(s, separators), separators)
  }

  predicate Component(c: string, separators: string) {
    c != "" && forall i :: 0 <= i < |c| ==> c[i] !in separators
  }

  function Join(components: seq<string>, separator: char): string {
    if |components| == 0 then ""
    else if |components| == 1 then components[0]
    else components[0] + [separator] + Join(components[1..], separator)
  }

  /** Non-empty separator-free components joined by single separators come back unchanged. */
  lemma {:induction false} DrainJoin(components: seq<string>, separator: char)
    requires forall i :: 0 <= i < |components| ==> Component(components[i], [separator])
    ensures Drain(Join(components, separator), [separator]) == components
  {
    if |components| > 0 {
      var c, s := components[0], Join(components, separator);
      if |components| == 1 {
        assert NextSeparator(s, [separator], 1) == |s| && s[..|s|] == s;
      } else {
        DrainJoin(components[1..], separator);
        assert s[..|c|] == c && s[|c|] == separator && s[|c| + 1..] == Join(components[1..], separator);
        forall j | 1 <= j < |c|
          ensures s[j] !in [separator]
        {
          assert s[j] == c[j];
        }
        assert NextSeparator(s, [separator], 1) == |c|;
      }
    }
  }

  predicate Separate(tokens: seq<string>, separators: string) {
    forall i :: 0 <= i < |tokens| ==> Component(tokens[i], separators)
  }

  /** No separator at the front, and no two in a row. */
  predicate SinglySeparated(s: string, separators: string) {
    && (s != "" ==> s[0] !in separators)
    && forall i :: 0 < i < |s| && s[i - 1] in separators ==> s[i] !in separators
  }

  lemma SinglySeparatedStep(s: string, separators: string)
    requires s != ""
    ensures var k := NextSeparator(s, separators, 1);
      SinglySeparated(s, separators) <==>
        s[0] !in separators && (k < |s| ==> SinglySeparated(s[k + 1..], separators))
  {
    var k := NextSeparator(s, separators, 1);
    if k < |s| {
      var t := s[k + 1..];
      if SinglySeparated(s, separators) {
        assert forall i :: 0 <= i < |t| ==> t[i] == s[k + 1 + i];
      }
      if s[0] !in separators && SinglySeparated(t, separators) {
        forall i | 0 < i < |s| && s[i - 1] in separators
          ensures s[i] !in separators
        {
          assert i > k;
          assert s[i] == t[i - k - 1];
          if i > k + 1 { assert s[i - 1] == t[i - k - 2]; }
        }
      }
    }
  }

  /** Exactly when a string has no empty component are all its tokens free of separators. */
  lemma {:induction false} DrainSeparates(s: string, separators: string)
    ensures Separate(Drain(s, separators), separators) <==> SinglySeparated(s, separators)
    decreases |s|
  {
    if s != "" {
      var k, d := NextSeparator(s, separators, 1), Drain(s, separators);
      var t := if k < |s| then s[k + 1..] else "";
      DrainSeparates(t, separators);
      SinglySeparatedStep(s, separators);
      var c, e := s[..k], Drain(t, separators);
      assert k == |s| ==> c == s;
      assert d == [c] + e;
      assert Component(c, separators) <==> s[0] !in separators by { assert c[0] == s[0]; }
      if Separate(d, separators) {
        assert forall i :: 0 <= i < |e| ==> e[i] == d[i + 1];
        assert d[0] == c;
      }
    }
  }

  class Tokenizer {
    var buffer: array<char>
    var cursor: nat
    ghost var end: nat   // offset of the terminating NUL

    ghost predicate Valid()
      reads this, buffer
    {
      && cursor <= end < buffer.Length
      && buffer[end] == '\0'
      && forall i :: cursor <= i < end ==> buffer[i] != '\0'
    }

    /** The part of the string not yet handed out. */
    ghost function Rest(): string
      requires Valid()
      reads this, buffer
    {
      buffer[cursor..end]
    }

    /** The first call, on a copy of the string. */
    constructor (s: string)
      requires '\0' !in s
      ensures Valid() && Rest() == s && fresh(buffer)
    {
      var b := new char[|s| + 1](i requires 0 <= i <= |s| => if i < |s| then s[i] else '\0');
      buffer := b;
      cursor := 0;
      end := |s|;
      new;
      assert buffer[0..end] == s;
    }

    /** The scan of strtok: to the first separator after the first character, or the NUL. */
    method Scan(separators: string) returns (found: bool)
      requires Valid() && '\0' !in separators && cursor < end
      modifies this`cursor
      ensures old(cursor) < cursor <= end && found == (cursor < end)
      ensures cursor < end ==> buffer[cursor] in separators
      ensures forall j :: old(cursor) < j < cursor ==> buffer[j] !in separators
    {
      found := false;
      while buffer[cursor] != '\0'
        invariant old(cursor) <= cursor <= end
        invariant forall j :: old(cursor) < j <= cursor && j < end ==> buffer[j] !in separators
        decreases end - cursor
      {
        cursor := cursor + 1;
        found := IsOneOf(buffer[cursor], separators);
        if found {
          return;
        }
      }
    }

    /** One call of strtok: the token's offset, NUL-terminated in place, or -1 at the end.
        What was handed out before stays as it is. */
    method Next(separators: string) returns (start: int, stop: nat)
      requires Valid() && '\0' !in separators
      modifies this`cursor, buffer
      ensures Valid() && end == old(end)
      ensures old(Rest()) == "" ==> start == -1 && Rest() == "" && buffer[..] == old(buffer[..])
      ensures old(Rest()) != "" ==> start == old(cursor) < stop <= end && buffer[stop] == '\0'
      ensures old(Rest()) != "" ==> buffer[..start] == old(buffer[..start])
      ensures old(Rest()) != "" ==> buffer[start..stop] == FirstToken(old(Rest()), separators)
      ensures old(Rest()) != "" ==> Rest() == AfterToken(old(Rest()), separators)
    {
      ghost var s := Rest();
      start, stop := cursor, cursor;
      if buffer[cursor] == '\0' {
        start := -1;
        return;
      }
      var found := Scan(separators);
      stop := cursor;
      assert NextSeparator(s, separators, 1) == stop - start;
      if found {
        buffer[cursor] := '\0';
        cursor := cursor + 1;
      }
      assert buffer[start..stop] == s[..stop - start];
    }

    /** One call, with the string at the returned pointer. */
    method Token(separators: string) returns (more: bool, token: string)
      requires Valid() && '\0' !in separators
      modifies this`cursor, buffer
      ensures Valid()
      ensures Drain(old(Rest()), separators) == Pending(more, token, Rest(), separators)
      ensures if more then |Rest()| < |old(Rest())| else Rest() == old(Rest()) == ""
    {
      var start, stop := Next(separators);
      more := start >= 0;
      token := if more then buffer[start..stop] else "";
    }
  }

  /** The tokens still to come after one call that returned `token`, or none. */
  function Pending(more: bool, token: string, rest: string, separators: string): seq<string> {
    if more then [token] + Drain(rest, separators) else []
  }

  /** The inner loop of strtok, from the last separator down. */
  method IsOneOf(c: char, separators: string) returns (found: bool)
    ensures found <==> c in separators
  {
    var i := |separators| - 1;
    while i >= 0
      invariant -1 <= i < |separators|
      invariant forall j :: i < j < |separators| ==> separators[j] != c
    {
      if c == separators[i] {
        return true;
      }
      i := i - 1;
    }
    return false;
  }

  /** The components get_inode_index_of walks: one leading and one trailing slash removed. */
  function PathComponents(path: string): seq<string>
    requires path != ""
  {
    if path == "/" then []
    else
      var p := if path[0] == '/' then path[1..] else path;
      Drain(if p[|p| - 1] == '/' then p[..|p| - 1] else p, "/")
  }

  lemma JoinEnds(components: seq<string>)
    requires |components| > 0
    requires forall i :: 0 <= i < |components| ==> Component(components[i], "/")
    ensures var s := Join(components, '/'); s != "" && s[0] != '/' && s[|s| - 1] != '/'
  {
    if |components| > 1 {
      JoinEnds(components[1..]);
    }
  }

  /** An absolute, a relative and a slash-terminated path all give the intended components, and the
      root has none. */
  lemma PathRoundTrip(components: seq<string>)
    requires |components| > 0
    requires forall i :: 0 <= i < |components| ==> Component(components[i], "/")
    ensures PathComponents("/") == []
    ensures var s := Join(components, '/');
      && s != "" && PathComponents(s) == components
      && PathComponents("/" + s) == components
      && PathComponents("/" + s + "/") == components
  {
    var s := Join(components, '/');
    JoinEnds(components);
    DrainJoin(components, '/');
    assert s != "/" && "/" + s != "/";
    assert ("/" + s)[1..] == s;
    var t := "/" + s + "/";
    assert t != "/" && t[1..] == s + "/" && (s + "/")[..|s|] == s;
  }
}
