/** Parsing of the comma-separated instance lists. */
module Config {
  import opened CircuitBreaker
  import opened Registry
  import opened Sequences

  /** Unicode white space, as Go's `unicode.IsSpace` has it. */
  predicate IsSpace(c: char) {
    var code := c as int;
    || 0x9 <= code <= 0xD
    || code in {0x20, 0x85, 0xA0, 0x1680, 0x2028, 0x2029, 0x202F, 0x205F, 0x3000}
    || 0x2000 <= code <= 0x200A
  }

  function TrimLeft(s: string): string {
    if s != "" && IsSpace(s[0]) then TrimLeft(s[1..]) else s
  }

  function TrimRight(s: string): string {
    if s != "" && IsSpace(Last(s)) then TrimRight(Front(s)) else s
  }

  /** `strings.TrimSpace`. */
  function Trim(s: string): string {
    TrimRight(TrimLeft(s))
  }

  /** `strings.Split(s, ",")`: at least one part, and one more for each comma. */
  function Split(s: string): (parts: seq<string>)
    ensures parts != []
  {
    if s == "" then [""]
    else
      var rest := Split(s[1..]);
      if s[0] == ',' then [""] + rest else [[s[0]] + rest[0]] + rest[1..]
  }

  function Join(parts: seq<string>): string {
    if parts == [] then ""
    else if |parts| == 1 then parts[0]
    else parts[0] + "," + Join(parts[1..])
  }

  /** Not empty, without commas, and with no space at either end. */
  predicate Clean(s: string) {
    s != "" && ',' !in s && !IsSpace(s[0]) && !IsSpace(Last(s))
  }

  ghost predicate NoCommas(parts: seq<string>) {
    forall i :: 0 <= i < |parts| ==> ',' !in parts[i]
  }

  ghost predicate AllClean(parts: seq<string>) {
    forall i :: 0 <= i < |parts| ==> Clean(parts[i])
  }

  // ----- What Split and Trim are -----

  lemma {:induction false} JoinOfSplit(s: string)
    ensures Join(Split(s)) == s && NoCommas(Split(s))
  {
    if s != "" {
      JoinOfSplit(s[1..]);
      var rest := Split(s[1..]);
      if s[0] == ',' {
        assert Split(s)[1..] == rest;
      } else {
        assert Split(s)[1..] == rest[1..];
      }
    }
  }

  lemma {:induction false} SplitWithoutComma(s: string)
    requires ',' !in s
    ensures Split(s) == [s]
  {
    if s != "" {
      SplitWithoutComma(s[1..]);
      assert [s[0]] + s[1..] == s;
    }
  }

  lemma {:induction false} SplitAtComma(s: string, rest: string)
    requires ',' !in s
    ensures Split(s + "," + rest) == [s] + Split(rest)
  {
    var all := s + "," + rest;
    if s == "" {
      assert all[1..] == rest;
    } else {
      assert all[0] == s[0] && all[1..] == s[1..] + "," + rest;
      SplitAtComma(s[1..], rest);
      assert [s[0]] + s[1..] == s;
      assert ([s[1..]] + Split(rest))[1..] == Split(rest);
    }
  }

  /** Split undoes Join on every non-empty list of comma-free parts. */
  lemma {:induction false} SplitOfJoin(parts: seq<string>)
    requires parts != [] && NoCommas(parts)
    ensures Split(Join(parts)) == parts
  {
    if |parts| == 1 {
      SplitWithoutComma(parts[0]);
    } else {
      assert NoCommas(parts[1..]);
      SplitOfJoin(parts[1..]);
      SplitAtComma(parts[0], Join(parts[1..]));
    }
  }

  ghost predicate AllSpaces(s: string) {
    forall i :: 0 <= i < |s| ==> IsSpace(s[i])
  }

  lemma {:induction false} TrimLeftCuts(s: string) returns (pad: string)
    ensures AllSpaces(pad) && s == pad + TrimLeft(s)
    ensures TrimLeft(s) != "" ==> !IsSpace(TrimLeft(s)[0])
  {
    pad := "";
    if s != "" && IsSpace(s[0]) {
      var rest := TrimLeftCuts(s[1..]);
      pad := [s[0]] + rest;
    }
  }

  lemma {:induction false} TrimRightCuts(s: string) returns (pad: string)
    ensures AllSpaces(pad) && s == TrimRight(s) + pad
    ensures TrimRight(s) != "" ==> !IsSpace(Last(TrimRight(s)))
  {
    pad := "";
    if s != "" && IsSpace(Last(s)) {
      var rest := TrimRightCuts(Front(s));
      pad := rest + [Last(s)];
    }
  }

  /** Trim cuts off nothing but space, and all of it. */
  lemma TrimCutsSpace(s: string) returns (left: string, right: string)
    ensures AllSpaces(left) && AllSpaces(right) && s == left + Trim(s) + right
    ensures Trim(s) != "" ==> !IsSpace(Trim(s)[0]) && !IsSpace(Last(Trim(s)))
  {
    left := TrimLeftCuts(s);
    right := TrimRightCuts(TrimLeft(s));
    if Trim(s) != "" {
      assert Trim(s)[0] == TrimLeft(s)[0];
    }
  }

  lemma TrimOfClean(s: string)
    requires Clean(s)
    ensures Trim(s) == s
  {
  }

  // ----- The list -----

  /** The trimmed parts that are not empty, in order. */
  function Kept(parts: seq<string>): seq<string> {
    if parts == [] then []
    else Kept(Front(parts)) + KeptOf(Last(parts))
  }

  function KeptOf(part: string): seq<string> {
    if Trim(part) != "" then [Trim(part)] else []
  }

  function Items(raw: string): seq<string> {
    Kept(Split(raw))
  }

  type Env = map<string, string>

  /** An unset variable reads as the empty string. */
  function Getenv(env: Env, key: string): string {
    if key in env then env[key] else ""
  }

  function GetEnv(env: Env, key: string, fallback: string): string {
    if Getenv(env, key) != "" then Getenv(env, key) else fallback
  }

  /** The list read from a variable whose value is `v`. */
  function ListOf(v: string, fallback: string): seq<string> {
    var items := Items(if v != "" then v else fallback);
    if items == [] then [fallback] else items
  }

  // ----- What a list value is, apart from how it is read -----

  /** One part of a value: an address with white space around it, or white space alone. */
  datatype Part = Address(left: string, addr: string, right: string) | Blank(space: string)
  {
    function Text(): string {
      match this
      case Address(left, addr, right) => left + addr + right
      case Blank(space) => space
    }

    ghost predicate WellFormed() {
      match this
      case Address(left, addr, right) => AllSpaces(left) && Clean(addr) && AllSpaces(right)
      case Blank(space) => AllSpaces(space)
    }
  }

  function Texts(parts: seq<Part>): seq<string> {
    if parts == [] then [] else Texts(Front(parts)) + [Last(parts).Text()]
  }

  /** The addresses among the parts, in order. */
  function Addresses(parts: seq<Part>): seq<string> {
    if parts == [] then []
    else Addresses(Front(parts)) + if Last(parts).Address? then [Last(parts).addr] else []
  }

  /** The value is these parts, with commas between them. */
  ghost predicate Describes(parts: seq<Part>, value: string) {
    && parts != [] && (forall i :: 0 <= i < |parts| ==> parts[i].WellFormed())
    && value == Join(Texts(parts))
  }

  /** The value that counts: the variable's, or the fallback if it is unset or empty. */
  function Effective(env: Env, key: string, fallback: string): string {
    if key in env && env[key] != "" then env[key] else fallback
  }

  lemma PaddingIsTrimmed(p: Part)
    requires p.WellFormed()
    ensures Trim(p.Text()) == if p.Address? then p.addr else ""
    ensures ',' !in p.Text()
  {
    match p
    case Address(left, addr, right) =>
      TrimLeftOff(left, addr + right);
      TrimRightOff(addr, right);
      assert p.Text() == left + (addr + right);
    case Blank(space) =>
      TrimLeftOff(space, "");
      assert space + "" == space;
  }

  lemma {:induction false} TrimLeftOff(pad: string, s: string)
    requires AllSpaces(pad) && (s != "" ==> !IsSpace(s[0]))
    ensures TrimLeft(pad + s) == s && ',' !in pad
  {
    if pad == "" {
      assert pad + s == s;
    } else {
      assert (pad + s)[1..] == pad[1..] + s;
      TrimLeftOff(pad[1..], s);
    }
  }

  lemma {:induction false} TrimRightOff(s: string, pad: string)
    requires AllSpaces(pad) && (s != "" ==> !IsSpace(Last(s)))
    ensures TrimRight(s + pad) == s && ',' !in pad
  {
    if pad == "" {
      assert s + pad == s;
    } else {
      assert Front(s + pad) == s + Front(pad);
      TrimRightOff(s, Front(pad));
    }
  }

  lemma {:induction false} AddressesAreKept(parts: seq<Part>)
    requires forall i :: 0 <= i < |parts| ==> parts[i].WellFormed()
    ensures |Texts(parts)| == |parts| && NoCommas(Texts(parts))
    ensures Kept(Texts(parts)) == Addresses(parts)
  {
    if parts != [] {
      AddressesAreKept(Front(parts));
      PaddingIsTrimmed(Last(parts));
      assert Front(Texts(parts)) == Texts(Front(parts));
    }
  }

  /** However a value is described, the list read from it is the addresses, in order. */
  lemma DescribedIsRead(parts: seq<Part>, value: string)
    requires Describes(parts, value)
    ensures Items(value) == Addresses(parts)
  {
    AddressesAreKept(parts);
    SplitOfJoin(Texts(parts));
  }

  /** And every value can be described so. */
  lemma EveryValueIsDescribed(value: string) returns (parts: seq<Part>)
    ensures Describes(parts, value)
  {
    JoinOfSplit(value);
    parts := PartsOf(Split(value));
  }

  lemma {:induction false} PartsOf(texts: seq<string>) returns (parts: seq<Part>)
    requires NoCommas(texts)
    ensures |parts| == |texts| && Texts(parts) == texts
    ensures forall i :: 0 <= i < |parts| ==> parts[i].WellFormed()
  {
    if texts == [] {
      parts := [];
    } else {
      var before := PartsOf(Front(texts));
      var text := Last(texts);
      var left, right := TrimCutsSpace(text);
      assert forall c :: c in Trim(text) ==> c in text;
      var part := if Trim(text) == "" then Blank(text) else Address(left, Trim(text), right);
      parts := before + [part];
      assert Front(parts) == before && texts == Front(texts) + [text];
    }
  }

  lemma ReadingIsDescribed(env: Env, key: string, fallback: string, parts: seq<Part>)
    requires Describes(parts, Effective(env, key, fallback))
    ensures ListOf(Getenv(env, key), fallback)
            == if Addresses(parts) != [] then Addresses(parts) else [fallback]
  {
    DescribedIsRead(parts, Effective(env, key, fallback));
  }

  /** The addresses of the value that counts, or the fallback alone if there are none. */
  method GetEnvList(env: Env, key: string, fallback: string) returns (out: seq<string>)
    ensures out == ListOf(Getenv(env, key), fallback)
    ensures out != []
    ensures forall parts :: Describes(parts, Effective(env, key, fallback)) ==>
              out == if Addresses(parts) != [] then Addresses(parts) else [fallback]
  {
    forall parts | Describes(parts, Effective(env, key, fallback))
      ensures ListOf(Getenv(env, key), fallback)
              == if Addresses(parts) != [] then Addresses(parts) else [fallback]
    {
      ReadingIsDescribed(env, key, fallback, parts);
    }
    var raw := GetEnv(env, key, fallback);
    var parts := Split(raw);
    out := [];
    for i := 0 to |parts|
      invariant out == Kept(parts[..i])
    {
      assert Front(parts[..i + 1]) == parts[..i];
      var p := Trim(parts[i]);
      if p != "" {
        out := out + [p];
      }
    }
    assert parts[..|parts|] == parts;
    if |out| == 0 {
      out := [fallback];
    }
  }

  lemma {:induction false} KeptAreClean(parts: seq<string>)
    requires NoCommas(parts)
    ensures AllClean(Kept(parts))
  {
    if parts != [] {
      KeptAreClean(Front(parts));
      var s := Last(parts);
      var left, right := TrimCutsSpace(s);
      assert forall c :: c in Trim(s) ==> c in s;
    }
  }

  lemma {:induction false} CleanAreKept(parts: seq<string>)
    requires AllClean(parts)
    ensures Kept(parts) == parts
  {
    if parts != [] {
      var before, last := Front(parts), Last(parts);
      assert parts == before + [last];
      assert AllClean(before) by {
        assert forall i :: 0 <= i < |before| ==> before[i] == parts[i];
      }
      CleanAreKept(before);
      assert KeptOf(last) == [last] by {
        TrimOfClean(last);
      }
    }
  }

  /** Every item is clean, however untidy the value is. */
  lemma ItemsAreClean(raw: string)
    ensures AllClean(Items(raw))
  {
    JoinOfSplit(raw);
    KeptAreClean(Split(raw));
  }

  lemma ItemsOfJoin(list: seq<string>)
    requires list != [] && AllClean(list)
    ensures Items(Join(list)) == list && Join(list) != ""
  {
    SplitOfJoin(list);
    CleanAreKept(list);
    assert Clean(list[0]);
  }

  /** White space is what Unicode says it is; nothing that shows in an address is. */
  lemma SpacesAreSpaces()
    ensures IsSpace(' ') && IsSpace('\t') && IsSpace('\n') && IsSpace('\r')
    ensures IsSpace(0xB as char) && IsSpace(0xC as char) && IsSpace(0x85 as char) && IsSpace(0xA0 as char)
    ensures forall c: char :: '!' <= c <= '~' ==> !IsSpace(c)
  {
  }

  /** So a list with a space after its comma has both its addresses. */
  lemma UntidyListIsRead(a: string, b: string, fallback: string)
    requires Clean(a) && Clean(b)
    ensures ListOf(a + ", " + b, fallback) == [a, b]
  {
    var p, q := Address("", a, ""), Address(" ", b, "");
    assert Front([p, q]) == [p] && Front([p]) == [] && p.Text() == a && q.Text() == " " + b;
    assert Texts([]) == [] && Texts([p]) == [a];
    assert Texts([p, q]) == Texts([p]) + [q.Text()] == [a, " " + b];
    assert [a, " " + b][1..] == [" " + b];
    assert a + "," + (" " + b) == a + ", " + b;
    DescribedIsRead([p, q], a + ", " + b);
    assert Addresses([p]) == [a];
  }

  /** Reading back the join of any non-empty list of clean addresses gives that list. */
  lemma RoundTrip(list: seq<string>, fallback: string)
    requires list != [] && AllClean(list)
    ensures ListOf(Join(list), fallback) == list
  {
    ItemsOfJoin(list);
  }

  /** Reading back the join of what was read changes nothing, unless the value had no items and the
      fallback is itself a list that is not in its plain form. */
  lemma RereadingIsStableIff(v: string, fallback: string)
    ensures ListOf(Join(ListOf(v, fallback)), fallback) == ListOf(v, fallback)
            <==> || Items(if v != "" then v else fallback) != []
                 || Clean(fallback)
                 || Items(fallback) == []
  {
    var items := Items(if v != "" then v else fallback);
    ItemsAreClean(if v != "" then v else fallback);
    ItemsAreClean(fallback);
    if items != [] {
      RoundTrip(items, fallback);
    } else {
      assert ListOf(v, fallback) == [fallback] && Join([fallback]) == fallback;
      assert Items(fallback) != [] ==> Clean(Items(fallback)[0]);
      if Clean(fallback) {
        ItemsOfJoin([fallback]);
      }
    }
  }

  /** With a clean fallback, as each of the gateway's own is, every list read is clean and stable. */
  lemma LoadedListsAreClean(v: string, fallback: string)
    requires Clean(fallback)
    ensures ListOf(v, fallback) != [] && AllClean(ListOf(v, fallback))
    ensures ListOf(Join(ListOf(v, fallback)), fallback) == ListOf(v, fallback)
  {
    ItemsAreClean(if v != "" then v else fallback);
    RereadingIsStableIff(v, fallback);
  }

  lemma OwnFallbacksAreClean()
    ensures Clean("http://localhost:9001")
    ensures Clean("http://localhost:9002")
    ensures Clean("http://localhost:9003")
  {
    assert Last("http://localhost:9001") == '1';
    assert Last("http://localhost:9002") == '2';
    assert Last("http://localhost:9003") == '3';
  }

  /** So every registry the router builds has an instance for each address of its list, in order,
      and at least one. */
  method BuildRegistry(env: Env, key: string, fallback: string, opts: Options, now: int)
      returns (reg: Registry)
    ensures fresh(reg) && reg.Valid() && reg.opts == Normalize(opts)
    ensures |reg.instances| == |ListOf(Getenv(env, key), fallback)| >= 1
    ensures forall i :: 0 <= i < |reg.instances| ==>
              reg.instances[i].addr == ListOf(Getenv(env, key), fallback)[i]
  {
    var addrs := GetEnvList(env, key, fallback);
    reg := new Registry(addrs, opts, now);
  }
}
