/** Station URLs "scheme:/k=v;k=v" (types.go): ordered parameters, printing and parsing. */
module StationUrl {
  import opened Lists

  datatype Url = Url(scheme: string, keys: seq<string>, params: map<string, string>)
  {
    /** The order lists every parameter once. */
    ghost predicate Valid() {
      (forall k :: k in keys <==> k in params) && NoDup(keys)
    }
  }

  function Assigned(u: Url, k: string, v: string): Url {
    Url(u.scheme, if k in u.params then u.keys else u.keys + [k], u.params[k := v])
  }

  function Without(keys: seq<string>, k: string): seq<string> {
    if keys == [] then []
    else if keys[0] == k then keys[1..]
    else [keys[0]] + Without(keys[1..], k)
  }

  function Dropped(u: Url, k: string): Url {
    if k in u.params then Url(u.scheme, Without(u.keys, k), u.params - {k}) else u
  }

  lemma {:induction false} WithoutIsFilter(keys: seq<string>, k: string)
    requires NoDup(keys)
    ensures forall x :: x in Without(keys, k) <==> x in keys && x != k
    ensures NoDup(Without(keys, k))
  {
    if keys != [] {
      WithoutIsFilter(keys[1..], k);
      assert keys == [keys[0]] + keys[1..];
      assert keys[0] !in keys[1..];
      var rest := Without(keys[1..], k);
      assert forall j :: 0 <= j < |rest| ==> rest[j] in rest;
    }
  }

  lemma {:induction false} DroppedIsValid(u: Url, k: string)
    requires u.Valid()
    ensures Dropped(u, k).Valid()
  {
    hide NoDup, Without;
    WithoutIsFilter(u.keys, k);
  }

  lemma {:induction false} WithoutAt(keys: seq<string>, k: string, i: nat)
    requires i < |keys| && keys[i] == k && k !in keys[..i]
    ensures Without(keys, k) == keys[..i] + keys[i + 1..]
  {
    if i > 0 {
      assert keys[..i][0] == keys[0];
      assert keys[1..][..i - 1] == keys[..i][1..];
      WithoutAt(keys[1..], k, i - 1);
    }
  }

  /** Removing a parameter that was just added restores the URL, order included. */
  lemma {:induction false} SetThenRemove(u: Url, k: string, v: string)
    requires u.Valid() && k !in u.params
    ensures Assigned(u, k, v).Valid()
    ensures Dropped(Assigned(u, k, v), k) == u
  {
    WithoutLast(u.keys, k);
    assert u.params[k := v] - {k} == u.params;
  }

  lemma {:induction false} WithoutLast(keys: seq<string>, k: string)
    requires k !in keys
    ensures Without(keys + [k], k) == keys
  {
    if keys != [] {
      assert (keys + [k])[1..] == keys[1..] + [k];
      WithoutLast(keys[1..], k);
    }
  }

  // ---- Printing -----------------------------------------------------------------------

  function Part(u: Url, k: string): string {
    k + "=" + (if k in u.params then u.params[k] else "")
  }

  function Parts(u: Url): (ps: seq<string>)
    ensures |ps| == |u.keys|
  {
    seq(|u.keys|, i requires 0 <= i < |u.keys| => Part(u, u.keys[i]))
  }

  function Join(parts: seq<string>): string {
    if parts == [] then ""
    else if |parts| == 1 then parts[0]
    else parts[0] + ";" + Join(parts[1..])
  }

  function Printed(u: Url): string {
    if u.scheme != "" then u.scheme + ":/" + Join(Parts(u)) else Join(Parts(u))
  }

  // ---- Parsing ------------------------------------------------------------------------

  /** The first position where the two characters a, b stand next to each other, or -1. */
  function IndexPair(s: string, a: char, b: char): (i: int)
    ensures -1 <= i && i + 2 <= |s| + 1
    ensures i >= 0 ==> i + 2 <= |s| && s[i] == a && s[i + 1] == b
    ensures forall j :: 0 <= j < (if i < 0 then |s| - 1 else i) ==> !(s[j] == a && s[j + 1] == b)
  {
    if |s| < 2 then -1
    else if s[0] == a && s[1] == b then 0
    else
      var r := IndexPair(s[1..], a, b);
      if r < 0 then -1 else r + 1
  }

  function IndexOf(s: string, c: char): (i: int)
    ensures -1 <= i < |s|
    ensures i >= 0 ==> s[i] == c && c !in s[..i]
    ensures i < 0 ==> c !in s
  {
    if s == "" then -1
    else if s[0] == c then 0
    else
      var r := IndexOf(s[1..], c);
      if r < 0 then -1 else r + 1
  }

  function Split(s: string): seq<string>
    decreases |s|
  {
    var i := IndexOf(s, ';');
    if i < 0 then [s] else [s[..i]] + Split(s[i + 1..])
  }

  /** A field without "=" is skipped. */
  function ParseField(u: Url, f: string): Url {
    var i := IndexOf(f, '=');
    if i < 0 then u else Assigned(u, f[..i], f[i + 1..])
  }

  function ParseFields(u: Url, fields: seq<string>): Url
    decreases |fields|
  {
    if fields == [] then u else ParseFields(ParseField(u, fields[0]), fields[1..])
  }

  const EMPTY := Url("", [], map[])

  function Parsed(s: string): Url {
    var i := IndexPair(s, ':', '/');
    if i < 0 then EMPTY
    else if s[i + 2..] == "" then EMPTY.(scheme := s[..i])
    else ParseFields(EMPTY.(scheme := s[..i]), Split(s[i + 2..]))
  }

  // ---- The URL object -------------------------------------------------------------------

  class StationURL {
    var scheme: string
    var keys: seq<string>
    var params: map<string, string>

    ghost function Model(): Url
      reads this
    {
      Url(scheme, keys, params)
    }

    constructor (s: string)
      ensures Model() == EMPTY.(scheme := s) && Model().Valid()
    {
      scheme, keys, params := s, [], map[];
    }

    method Set(k: string, v: string)
      requires Model().Valid()
      modifies this
      ensures Model() == Assigned(old(Model()), k, v) && Model().Valid()
    {
      if k !in params {
        keys := keys + [k];
      }
      params := params[k := v];
    }

    method Remove(k: string)
      requires Model().Valid()
      modifies this
      ensures Model() == Dropped(old(Model()), k) && Model().Valid()
    {
      if k !in params {
        return;
      }
      hide NoDup, Without;
      DroppedIsValid(Model(), k);
      params := params - {k};
      var i := 0;
      while i < |keys|
        invariant 0 <= i <= |keys| && keys == old(keys) && k !in keys[..i]
      {
        if keys[i] == k {
          WithoutAt(keys, k, i);
          keys := keys[..i] + keys[i + 1..];
          return;
        }
        i := i + 1;
      }
    }

    /** An independent copy: later changes to one do not show in the other. */
    method Copy() returns (c: StationURL)
      requires Model().Valid()
      ensures fresh(c) && c.Model() == Model() && c.Model().Valid()
    {
      c := new StationURL(scheme);
      c.keys := keys;
      var todo := params.Keys;
      c.params := map[];
      while todo != {}
        invariant todo <= params.Keys
        invariant c.scheme == scheme && c.keys == keys && c.params == params - todo
        decreases todo
      {
        var k :| k in todo;
        c.params := c.params[k := params[k]];
        todo := todo - {k};
      }
    }

    method String() returns (s: string)
      requires Model().Valid()
      ensures s == Printed(Model())
    {
      var parts: seq<string> := [];
      var i := 0;
      while i < |keys|
        invariant 0 <= i <= |keys| && parts == Parts(Model())[..i]
      {
        parts := parts + [keys[i] + "=" + params[keys[i]]];
        i := i + 1;
      }
      assert parts == Parts(Model());
      var joined := Join(parts);
      s := if scheme != "" then scheme + ":/" + joined else joined;
    }
  }

  method ParseStationURL(s: string) returns (u: StationURL)
    ensures fresh(u) && u.Model() == Parsed(s) && u.Model().Valid()
  {
    hide IndexPair, IndexOf, Split, Assigned;
    u := new StationURL("");
    if s == "" {
      return;
    }
    var i := IndexPair(s, ':', '/');
    if i < 0 {
      return;
    }
    u.scheme := s[..i];
    var fields := s[i + 2..];
    if fields != "" {
      var parts := Split(fields);
      var n := 0;
      while n < |parts|
        invariant 0 <= n <= |parts| && u.Model().Valid()
        invariant Parsed(s) == ParseFields(u.Model(), parts[n..])
      {
        var f := parts[n];
        assert parts[n..][0] == f && parts[n..][1..] == parts[n + 1..];
        var e := IndexOf(f, '=');
        if e >= 0 {
          u.Set(f[..e], f[e + 1..]);
        }
        n := n + 1;
      }
    }
  }

  // ---- Round trip -----------------------------------------------------------------------

  lemma {:induction false} IndexOfFirst(a: string, c: char, b: string)
    requires c !in a
    ensures IndexOf(a + [c] + b, c) == |a|
  {
    var s := a + [c] + b;
    var i := IndexOf(s, c);
    assert s[|a|] == c;
    assert forall j :: 0 <= j < |a| ==> s[j] == a[j];
    assert forall j :: 0 <= j < i ==> s[..i][j] == s[j];
  }

  lemma {:induction false} IndexPairFirst(a: string, b: string)
    requires IndexPair(a, ':', '/') < 0
    ensures IndexPair(a + ":/" + b, ':', '/') == |a|
  {
    var s := a + ":/" + b;
    var i := IndexPair(s, ':', '/');
    assert s[|a|] == ':' && s[|a| + 1] == '/';
    assert forall j :: 0 <= j < |a| ==> s[j] == a[j];
  }

  lemma {:induction false} SplitJoin(parts: seq<string>)
    requires parts != [] && forall p :: p in parts ==> ';' !in p
    ensures Split(Join(parts)) == parts
  {
    hide IndexOf;
    if |parts| == 1 {
      assert parts[0] in parts && IndexOf(parts[0], ';') < 0;
    } else {
      var rest := Join(parts[1..]);
      assert Join(parts) == parts[0] + [';'] + rest;
      IndexOfFirst(parts[0], ';', rest);
      assert Join(parts)[..|parts[0]|] == parts[0];
      assert Join(parts)[|parts[0]| + 1..] == rest;
      SplitJoin(parts[1..]);
    }
  }

  predicate PlainKey(k: string) { '=' !in k && ';' !in k }
  predicate PlainValue(v: string) { ';' !in v }

  /** Scheme, keys and values that do not contain the separators that would cut them. */
  ghost predicate Plain(u: Url) {
    && IndexPair(u.scheme, ':', '/') < 0
    && forall k :: k in u.params ==> PlainKey(k) && PlainValue(u.params[k])
  }

  /** The first n keys with their values. */
  ghost function FirstKeys(u: Url, n: nat): Url
    requires n <= |u.keys| && u.Valid()
  {
    Url(u.scheme, u.keys[..n], map k | k in u.keys[..n] :: u.params[k])
  }

  lemma {:induction false} OneMoreKey(u: Url, n: nat)
    requires u.Valid() && n < |u.keys|
    ensures var k := u.keys[n];
            k in u.params && Assigned(FirstKeys(u, n), k, u.params[k]) == FirstKeys(u, n + 1)
  {
    var k := u.keys[n];
    assert k in u.keys;
    assert u.keys[..n + 1] == u.keys[..n] + [k];
    assert k !in u.keys[..n];
  }

  lemma {:induction false} ParsePart(u: Url, n: nat)
    requires u.Valid() && Plain(u) && n < |u.keys|
    ensures ParseField(FirstKeys(u, n), Parts(u)[n]) == FirstKeys(u, n + 1)
  {
    hide Assigned, FirstKeys, IndexOf;
    OneMoreKey(u, n);
    var k := u.keys[n];
    var v := u.params[k];
    var part := Parts(u)[n];
    assert k in u.keys && PlainKey(k);
    assert part == k + ['='] + v;
    IndexOfFirst(k, '=', v);
    assert part[..|k|] == k && part[|k| + 1..] == v;
  }

  lemma {:induction false} ParseParts(u: Url, n: nat)
    requires u.Valid() && Plain(u) && n <= |u.keys|
    ensures ParseFields(FirstKeys(u, n), Parts(u)[n..]) == u
    decreases |u.keys| - n
  {
    if n == |u.keys| {
      assert u.keys[..n] == u.keys;
      assert FirstKeys(u, n) == u;
    } else {
      ParsePart(u, n);
      assert Parts(u)[n..][0] == Parts(u)[n] && Parts(u)[n..][1..] == Parts(u)[n + 1..];
      ParseParts(u, n + 1);
    }
  }

  lemma {:induction false} PrintParse(u: Url)
    requires u.Valid() && u.scheme != "" && Plain(u)
    ensures Parsed(Printed(u)) == u
  {
    var joined := Join(Parts(u));
    IndexPairFirst(u.scheme, joined);
    assert Printed(u)[..|u.scheme|] == u.scheme && Printed(u)[|u.scheme| + 2..] == joined;
    assert FirstKeys(u, 0) == EMPTY.(scheme := u.scheme);
    if u.keys == [] {
      assert u.params == map[];
    } else {
      forall p | p in Parts(u) ensures ';' !in p && p != "" {
        var i :| 0 <= i < |u.keys| && Parts(u)[i] == p;
        assert u.keys[i] in u.keys;
      }
      SplitJoin(Parts(u));
      JoinNonEmpty(Parts(u));
      assert Parts(u)[0..] == Parts(u);
      ParseParts(u, 0);
    }
  }

  lemma {:induction false} JoinNonEmpty(parts: seq<string>)
    requires parts != [] && parts[0] != ""
    ensures Join(parts) != ""
  {
  }

  lemma {:induction false} SplitIsPlain(s: string)
    ensures forall f :: f in Split(s) ==> ';' !in f
    decreases |s|
  {
    var i := IndexOf(s, ';');
    if i >= 0 {
      SplitIsPlain(s[i + 1..]);
    }
  }

  lemma {:induction false} ParseFieldPlain(u: Url, f: string)
    requires u.Valid() && Plain(u) && ';' !in f
    ensures ParseField(u, f).Valid() && Plain(ParseField(u, f))
  {
    var i := IndexOf(f, '=');
    if i >= 0 {
      assert PlainKey(f[..i]) && PlainValue(f[i + 1..]);
    }
  }

  lemma {:induction false} ParseFieldsPlain(u: Url, fields: seq<string>)
    requires u.Valid() && Plain(u) && forall f :: f in fields ==> ';' !in f
    ensures ParseFields(u, fields).Valid() && Plain(ParseFields(u, fields))
    decreases |fields|
  {
    if fields != [] {
      ParseFieldPlain(u, fields[0]);
      ParseFieldsPlain(ParseField(u, fields[0]), fields[1..]);
    }
  }

  /** Parsing always yields a valid URL whose parts contain no separator. */
  lemma {:induction false} ParsedIsPlain(s: string)
    ensures Parsed(s).Valid() && Plain(Parsed(s))
  {
    var i := IndexPair(s, ':', '/');
    if i >= 0 {
      var scheme := s[..i];
      assert forall j :: 0 <= j < |scheme| ==> scheme[j] == s[j];
      SplitIsPlain(s[i + 2..]);
      ParseFieldsPlain(EMPTY.(scheme := scheme), Split(s[i + 2..]));
    }
  }

  lemma {:induction false} ParseFieldsKeepFirst(u: Url, fields: seq<string>)
    requires u.keys != []
    ensures var w := ParseFields(u, fields);
            w.keys != [] && w.keys[0] == u.keys[0]
    decreases |fields|
  {
    hide IndexOf;
    if fields != [] {
      ParseFieldsKeepFirst(ParseField(u, fields[0]), fields[1..]);
    }
  }

  lemma {:induction false} FirstFieldKey(scheme: string, k: string, tail: string)
    requires PlainKey(k)
    ensures var w := ParseFields(EMPTY.(scheme := scheme), Split(k + "=" + tail));
            w.keys != [] && w.keys[0] == k
  {
    var s := k + ['='] + tail;
    var fields := Split(s);
    var i := IndexOf(s, ';');
    assert s == k + "=" + tail && s[|k|] == '=';
    var rest := if i < 0 then tail else tail[..i - |k| - 1];
    assert fields[0] == k + ['='] + rest by {
      if i >= 0 {
        assert i > |k| by { assert forall j :: 0 <= j < |k| ==> s[j] == k[j]; }
      }
    }
    IndexOfFirst(k, '=', rest);
    var u := ParseField(EMPTY.(scheme := scheme), fields[0]);
    assert (k + ['='] + rest)[..|k|] == k && u.keys == [k];
    hide IndexOf, Split;
    ParseFieldsKeepFirst(u, fields[1..]);
  }

  /** Without a scheme the text is read back as the empty address; when its first key starts with
      ":/" the key comes back shorter. */
  lemma {:induction false} SchemelessDiffers(u: Url)
    requires u.Valid() && u.scheme == "" && u.keys != []
    ensures Parsed(Printed(u)) != u
  {
    hide IndexOf, Split, ParseFields, IndexPair, Plain, Parsed;
    var text, k := Printed(u), u.keys[0];
    var v := u.params[k];
    assert k in u.keys;
    var tail := if |u.keys| == 1 then v else v + ";" + Join(Parts(u)[1..]);
    assert text == k + "=" + tail by { assert Parts(u)[0] == k + "=" + v; }
    hide Join, Parts;
    ParsedIsPlain(text);
    if IndexPair(text, ':', '/') == 0 && PlainKey(k) {
      ShorterKey(k, tail);
    } else if Parsed(text) == u {
      PlainHas(u, k);
      ParsedScheme(text);
      assert false;
    }
  }

  lemma {:induction false} ParsedScheme(text: string)
    ensures var i := IndexPair(text, ':', '/');
            if i < 0 then Parsed(text) == EMPTY else |Parsed(text).scheme| == i
  {
    hide IndexOf, Split, ParseFields;
    var i := IndexPair(text, ':', '/');
    if i >= 0 {
      ParseFieldsKeepScheme(EMPTY.(scheme := text[..i]), Split(text[i + 2..]));
    }
  }

  lemma {:induction false} ParseFieldsKeepScheme(u: Url, fields: seq<string>)
    ensures ParseFields(u, fields).scheme == u.scheme
    decreases |fields|
  {
    hide IndexOf;
    if fields != [] {
      ParseFieldsKeepScheme(ParseField(u, fields[0]), fields[1..]);
    }
  }

  lemma {:induction false} PlainHas(u: Url, k: string)
    requires Plain(u) && k in u.params
    ensures PlainKey(k)
  {
  }

  lemma {:induction false} ShorterKey(k: string, tail: string)
    requires PlainKey(k) && IndexPair(k + "=" + tail, ':', '/') == 0
    ensures var w := Parsed(k + "=" + tail);
            w.keys != [] && w.keys[0] != k
  {
    hide IndexOf, Split, ParseFields;
    var text := k + "=" + tail;
    assert |k| >= 2 by {
      assert text[0] == ':' && text[1] == '/';
      assert text[|k|] == '=';
    }
    assert text[2..] == k[2..] + "=" + tail && text[..0] == "";
    FirstFieldKey("", k[2..], tail);
    assert |k[2..]| != |k|;
  }

  /** An address survives printing and parsing, order and values included, exactly when its scheme
      has no ":/", its keys no "=" or ";" and its values no ";" - or, without a scheme, exactly
      when it has no keys. */
  lemma {:induction false} RoundTripIff(u: Url)
    requires u.Valid()
    ensures Parsed(Printed(u)) == u <==> if u.scheme == "" then u.keys == [] else Plain(u)
  {
    hide IndexPair, Split, ParseFields, Plain;
    if u.scheme == "" {
      if u.keys == [] {
        assert u.params == map[];
        assert IndexPair("", ':', '/') < 0;
      } else {
        SchemelessDiffers(u);
      }
    } else if Plain(u) {
      PrintParse(u);
    } else {
      ParsedIsPlain(Printed(u));
    }
  }
}
