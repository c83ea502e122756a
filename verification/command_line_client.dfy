/** `CommandLineClient`: the start-up checks on the program arguments, the
    parsing of console lines into client calls, the loop that feeds them to
    a `ChatClient`, and the `hasName` flag its listener keeps. */
module CommandLineClient {
  import opened JavaText
  import opened Messages
  import CS = ChatClientSpec
  import ChatClient

  // ---------------------------------------------------------------- numerals

  predicate IsDigit(c: char)
  {
    '0' <= c <= '9'
  }

  predicate AllDigits(s: string)
  {
    forall k :: 0 <= k < |s| ==> IsDigit(s[k])
  }

  function DigitValue(c: char): nat
    requires IsDigit(c)
  {
    c as int - '0' as int
  }

  function Digit(n: nat): (c: char)
    requires n < 10
    ensures IsDigit(c) && DigitValue(c) == n
  {
    ('0' as int + n) as char
  }

  /** The number a string of decimal digits denotes. */
  function Value(s: string): nat
    requires AllDigits(s)
    decreases |s|
  {
    if s == [] then 0 else Value(s[..|s| - 1]) * 10 + DigitValue(s[|s| - 1])
  }

  /** The decimal numeral of `n`, without leading zeros. */
  function Numeral(n: nat): (r: string)
    ensures r != [] && AllDigits(r) && (|r| == 1 || r[0] != '0')
    decreases n
  {
    if n < 10 then [Digit(n)] else Numeral(n / 10) + [Digit(n % 10)]
  }

  function Pow10(k: nat): nat
  {
    if k == 0 then 1 else 10 * Pow10(k - 1)
  }

  /** A numeral without a leading zero is at least the power of ten its
      length calls for. */
  lemma {:induction false} ValueLowerBound(s: string)
    requires s != [] && AllDigits(s) && s[0] != '0'
    ensures Value(s) >= Pow10(|s| - 1)
    decreases |s|
  {
    if |s| > 1 {
      var p := s[..|s| - 1];
      assert p[0] == s[0];
      ValueLowerBound(p);
    }
  }

  /** Reading a numeral back gives the number. */
  lemma {:induction false} NumeralValue(n: nat)
    ensures Value(Numeral(n)) == n
    decreases n
  {
    var r := Numeral(n);
    if n < 10 {
      assert r[..0] == [];
    } else {
      NumeralValue(n / 10);
      assert r[..|r| - 1] == Numeral(n / 10);
    }
  }

  /** A digit string without leading zeros is the numeral of its value. */
  lemma {:induction false} ValueNumeral(s: string)
    requires s != [] && AllDigits(s) && (|s| == 1 || s[0] != '0')
    ensures Numeral(Value(s)) == s
    decreases |s|
  {
    var p := s[..|s| - 1];
    if |s| == 1 {
      assert p == [];
      assert s == [s[0]];
    } else {
      assert p[0] == s[0];
      ValueLowerBound(p);
      ValueNumeral(p);
      assert s == p + [s[|s| - 1]];
    }
  }

  // ---------------------------------------------------------------- IPv4 addresses

  /** One octet of the address pattern, alternative by alternative:
      `25[0-5]`, `2[0-4][0-9]`, `1[0-9][0-9]` and `[1-9]?[0-9]`. */
  predicate MatchesOctet(s: string)
  {
    (|s| == 3 && s[0] == '2' && s[1] == '5' && '0' <= s[2] <= '5') ||
    (|s| == 3 && s[0] == '2' && '0' <= s[1] <= '4' && IsDigit(s[2])) ||
    (|s| == 3 && s[0] == '1' && IsDigit(s[1]) && IsDigit(s[2])) ||
    (|s| == 2 && '1' <= s[0] <= '9' && IsDigit(s[1])) ||
    (|s| == 1 && IsDigit(s[0]))
  }

  /** The numeric reading of an octet: a numeral of at most 255 with no
      leading zero. */
  predicate IsOctetNumeral(s: string)
  {
    s != [] && AllDigits(s) && (|s| == 1 || s[0] != '0') && Value(s) <= 255
  }

  lemma ValueOfShort(s: string)
    requires AllDigits(s) && 1 <= |s| <= 3
    ensures |s| == 1 ==> Value(s) == DigitValue(s[0])
    ensures |s| == 2 ==> Value(s) == 10 * DigitValue(s[0]) + DigitValue(s[1])
    ensures |s| == 3 ==> Value(s) == 100 * DigitValue(s[0]) + 10 * DigitValue(s[1]) + DigitValue(s[2])
  {
    var p := s[..|s| - 1];
    assert s[..1][..0] == [];
    if |s| >= 2 {
      assert s[..2][..1] == s[..1];
    }
    if |s| == 3 {
      assert p == s[..2];
    }
  }

  /** The octet alternatives accept exactly the numerals 0 to 255 written
      without leading zeros. */
  lemma OctetPatternIsNumeral(s: string)
    ensures MatchesOctet(s) <==> IsOctetNumeral(s)
  {
    if 1 <= |s| <= 3 && AllDigits(s) {
      ValueOfShort(s);
    } else if |s| > 3 && AllDigits(s) && s[0] != '0' {
      ValueLowerBound(s);
      assert Pow10(|s| - 1) >= Pow10(3) by { PowMonotone(3, |s| - 1); }
    }
  }

  lemma {:induction false} PowMonotone(j: nat, k: nat)
    requires j <= k
    ensures Pow10(j) <= Pow10(k)
    decreases k
  {
    if j < k {
      PowMonotone(j, k - 1);
    }
  }

  /** The text between the dots of `s`, split as `String.split("\\.", -1)`
      would. */
  function Fields(s: string): (r: seq<string>)
    ensures |r| >= 1
    decreases |s|
  {
    if s == [] then [[]]
    else
      var rest := Fields(s[1..]);
      if s[0] == '.' then [[]] + rest else [[s[0]] + rest[0]] + rest[1..]
  }

  /** The fields joined back with dots. */
  function Join(fields: seq<string>): string
    requires |fields| >= 1
    decreases |fields|
  {
    if |fields| == 1 then fields[0] else fields[0] + "." + Join(fields[1..])
  }

  /** Splitting and joining again gives back the text. */
  lemma {:induction false} JoinFields(s: string)
    ensures Join(Fields(s)) == s
    decreases |s|
  {
    if s != [] {
      var rest := Fields(s[1..]);
      JoinFields(s[1..]);
      if s[0] == '.' {
        assert ([[]] + rest)[1..] == rest;
      } else if |rest| > 1 {
        var f := [[s[0]] + rest[0]] + rest[1..];
        assert f[1..] == rest[1..];
      }
    }
  }

  /** A text with dots between dot-free fields splits into those fields. */
  lemma {:induction false} FieldsOfJoin(x: string, y: string)
    requires '.' !in x
    ensures Fields(x + "." + y) == [x] + Fields(y)
    decreases |x|
  {
    if x == [] {
      assert ("." + y)[1..] == y;
    } else {
      assert (x + "." + y)[1..] == x[1..] + "." + y;
      FieldsOfJoin(x[1..], y);
      assert [x[0]] + x[1..] == x;
    }
  }

  lemma {:induction false} FieldsOfDotFree(x: string)
    requires '.' !in x
    ensures Fields(x) == [x]
    decreases |x|
  {
    if x != [] {
      FieldsOfDotFree(x[1..]);
      assert [x[0]] + x[1..] == x;
    }
  }

  /** `Pattern.matches(ipRegex, s)`: four octets separated by dots (the word
      boundaries at both ends hold whenever the whole text is octets). */
  predicate IsAddress(s: string)
  {
    var f := Fields(s);
    |f| == 4 && forall i :: 0 <= i < 4 ==> MatchesOctet(f[i])
  }

  /** The dotted rendering of four numbers. */
  function Dotted(a: nat, b: nat, c: nat, d: nat): string
  {
    Join([Numeral(a), Numeral(b), Numeral(c), Numeral(d)])
  }

  /** Fields without dots split back out of their join. */
  lemma {:induction false} FieldsOfJoinAll(fs: seq<string>)
    requires |fs| >= 1 && forall i :: 0 <= i < |fs| ==> '.' !in fs[i]
    ensures Fields(Join(fs)) == fs
    decreases |fs|
  {
    if |fs| == 1 {
      FieldsOfDotFree(fs[0]);
    } else {
      FieldsOfJoinAll(fs[1..]);
      FieldsOfJoin(fs[0], Join(fs[1..]));
      assert [fs[0]] + fs[1..] == fs;
    }
  }

  /** An accepted address is the dotted rendering of the values of its
      fields, each at most 255. */
  lemma AcceptedIsDotted(s: string)
    requires IsAddress(s)
    ensures var f := Fields(s);
      (forall i :: 0 <= i < 4 ==> IsOctetNumeral(f[i])) &&
      s == Dotted(Value(f[0]), Value(f[1]), Value(f[2]), Value(f[3]))
  {
    var f := Fields(s);
    forall i | 0 <= i < 4 ensures IsOctetNumeral(f[i]) && Numeral(Value(f[i])) == f[i] {
      OctetPatternIsNumeral(f[i]);
      ValueNumeral(f[i]);
    }
    JoinFields(s);
    assert f == [Numeral(Value(f[0])), Numeral(Value(f[1])), Numeral(Value(f[2])), Numeral(Value(f[3]))];
  }

  /** Every accepted address is the dotted rendering of four numbers up to
      255, and every such rendering is accepted: the pattern accepts the
      canonical IPv4 addresses and nothing else. */
  lemma AddressesAreDottedOctets(s: string)
    ensures IsAddress(s) <==>
      exists a: nat, b: nat, c: nat, d: nat :: a <= 255 && b <= 255 && c <= 255 && d <= 255 && s == Dotted(a, b, c, d)
  {
    if IsAddress(s) {
      AcceptedIsDotted(s);
      var f := Fields(s);
      assert Value(f[0]) <= 255 && Value(f[1]) <= 255 && Value(f[2]) <= 255 && Value(f[3]) <= 255;
    }
    if exists a: nat, b: nat, c: nat, d: nat :: a <= 255 && b <= 255 && c <= 255 && d <= 255 && s == Dotted(a, b, c, d) {
      var a: nat, b: nat, c: nat, d: nat :| a <= 255 && b <= 255 && c <= 255 && d <= 255 && s == Dotted(a, b, c, d);
      DottedRoundTrip(a, b, c, d);
    }
  }

  /** The dotted rendering of four numbers up to 255 is accepted and reads
      back as those numbers. */
  lemma DottedRoundTrip(a: nat, b: nat, c: nat, d: nat)
    requires a <= 255 && b <= 255 && c <= 255 && d <= 255
    ensures IsAddress(Dotted(a, b, c, d))
    ensures Fields(Dotted(a, b, c, d)) == [Numeral(a), Numeral(b), Numeral(c), Numeral(d)]
    ensures Value(Numeral(a)) == a && Value(Numeral(b)) == b && Value(Numeral(c)) == c && Value(Numeral(d)) == d
  {
    var ns := [Numeral(a), Numeral(b), Numeral(c), Numeral(d)];
    forall i | 0 <= i < 4 ensures '.' !in ns[i] {
      assert AllDigits(ns[i]);
    }
    FieldsOfJoinAll(ns);
    NumeralValue(a);
    NumeralValue(b);
    NumeralValue(c);
    NumeralValue(d);
    var f := Fields(Dotted(a, b, c, d));
    forall i | 0 <= i < 4 ensures MatchesOctet(f[i]) {
      OctetPatternIsNumeral(f[i]);
    }
  }

  // ---------------------------------------------------------------- start-up

  /** How `main` reacts to its arguments: it needs an address, and the
      address must be an IPv4 address or "localhost". */
  datatype Startup = NoAddress | NotAnAddress | Connect(address: string)

  function CheckArgs(args: seq<string>): (r: Startup)
    ensures r.NoAddress? <==> |args| < 1
    ensures r.Connect? ==> r.address == args[0]
  {
    if |args| < 1 then NoAddress
    else if !(IsAddress(args[0]) || args[0] == "localhost") then NotAnAddress
    else Connect(args[0])
  }

  /** The client starts exactly for "localhost" and for the canonical
      dotted form of an IPv4 address. */
  lemma StartsForLocalhostOrDottedOctets(args: seq<string>)
    ensures CheckArgs(args).Connect? <==>
      |args| >= 1 &&
      (args[0] == "localhost" ||
       exists a: nat, b: nat, c: nat, d: nat :: a <= 255 && b <= 255 && c <= 255 && d <= 255 && args[0] == Dotted(a, b, c, d))
  {
    if |args| >= 1 {
      AddressesAreDottedOctets(args[0]);
    }
  }

  // ---------------------------------------------------------------- console lines

  /** What a console line asks the client to do. */
  datatype Command = ToAll(text: string) | ToOne(dest: string, text: string) | ListUsers | LogOut | Invalid

  /** The main loop's reading of one line: trimmed, then classified. */
  function Parse(line: string): (r: Outcome<Command>)
    ensures r.Thrown? <==>
      var input := Trim(line);
      StartsWith(ToLower(input), "message") && !StartsWith(ToLower(input), "message all") && ':' !in input
    ensures r.Normal? && r.value.ToOne? ==> ':' !in r.value.dest
    ensures r.Normal? && (r.value.ToOne? || r.value.ToAll?) ==> Trim(r.value.text) == r.value.text
    ensures var lower := ToLower(Trim(line));
      && (r.Normal? && r.value.ToAll? <==> StartsWith(lower, "message all"))
      && (r.Normal? && r.value.ToOne? <==> StartsWith(lower, "message") && !StartsWith(lower, "message all") && ':' in Trim(line))
      && (r == Normal(ListUsers) <==> !StartsWith(lower, "message") && StartsWith(lower, "list"))
      && (r == Normal(LogOut) <==> !StartsWith(lower, "message") && !StartsWith(lower, "list") && StartsWith(lower, "logout"))
      && (r == Normal(Invalid) <==>
            !StartsWith(lower, "message") && !StartsWith(lower, "list") && !StartsWith(lower, "logout"))
  {
    Classify(Trim(line))
  }

  /** The classification of a trimmed line by its lower-cased prefix,
      "message all" before "message". */
  function Classify(input: string): (r: Outcome<Command>)
    ensures r.Thrown? <==>
      StartsWith(ToLower(input), "message") && !StartsWith(ToLower(input), "message all") && ':' !in input
    ensures r.Normal? && r.value.ToOne? ==> ':' !in r.value.dest
    ensures r.Normal? && (r.value.ToOne? || r.value.ToAll?) ==> Trim(r.value.text) == r.value.text
    ensures var lower := ToLower(input);
      && (r.Normal? && r.value.ToAll? <==> StartsWith(lower, "message all"))
      && (r.Normal? && r.value.ToOne? <==> StartsWith(lower, "message") && !StartsWith(lower, "message all") && ':' in input)
      && (r == Normal(ListUsers) <==> !StartsWith(lower, "message") && StartsWith(lower, "list"))
      && (r == Normal(LogOut) <==> !StartsWith(lower, "message") && !StartsWith(lower, "list") && StartsWith(lower, "logout"))
      && (r == Normal(Invalid) <==>
            !StartsWith(lower, "message") && !StartsWith(lower, "list") && !StartsWith(lower, "logout"))
  {
    var lower := ToLower(input);
    StartsWithShorter(lower, "message", " all");
    if StartsWith(lower, "message all") then Normal(ToAll(AfterColon(input)))
    else if StartsWith(lower, "message") then Private(input)
    else if StartsWith(lower, "list") then Normal(ListUsers)
    else if StartsWith(lower, "logout") then Normal(LogOut)
    else Normal(Invalid)
  }

  /** `input.substring(input.indexOf(':') + 1).trim()`: the trimmed text after
      the first ':', or the whole input when it has none. */
  function AfterColon(input: string): (t: string)
    ensures Trim(t) == t
    ensures ':' !in input ==> t == Trim(input)
  {
    var i := IndexOf(input, ':');
    TrimIdempotent(input[i + 1..]);
    assert i == -1 ==> input[i + 1..] == input;
    Trim(input[i + 1..])
  }

  /** The "message" branch: the name between the keyword and the first ':',
      and the text after it, both trimmed. Without a ':', `substring(7, -1)`
      throws. */
  function Private(input: string): (r: Outcome<Command>)
    requires StartsWith(ToLower(input), "message")
    ensures r.Thrown? <==> ':' !in input
    ensures r.Normal? ==> r.value.ToOne? && ':' !in r.value.dest && Trim(r.value.text) == r.value.text
  {
    var i := IndexOf(input, ':');
    ColonAfterKeyword(input);
    match Substring(input, 7, i)
    case Thrown => Thrown
    case Normal(d) =>
      TrimOfSliceHasNo(d, ':');
      Normal(ToOne(Trim(d), AfterColon(input)))
  }

  /** The first ':' of a line that starts with "message" (in any case) is
      never inside the keyword: `indexOf` gives -1 or at least 7. */
  lemma ColonAfterKeyword(input: string)
    requires StartsWith(ToLower(input), "message")
    ensures IndexOf(input, ':') == -1 || IndexOf(input, ':') >= 7
  {
    forall k | 0 <= k < 7 ensures input[k] != ':' {
      assert ToLower(input)[k] == "message"[k];
    }
  }

  lemma TrimOfSliceHasNo(d: string, c: char)
    requires c !in d
    ensures c !in Trim(d)
  {
    TrimIsSlice(d);
  }

  /** "message all" lines: the text is what follows the first ':', or the
      whole line when it has no ':'. */
  lemma MessageAllText(line: string)
    requires StartsWith(ToLower(Trim(line)), "message all")
    ensures ':' !in Trim(line) ==> Parse(line) == Normal(ToAll(Trim(line)))
    ensures forall k :: 0 <= k < |Trim(line)| && Trim(line)[k] == ':' && ':' !in Trim(line)[..k] ==>
      Parse(line) == Normal(ToAll(Trim(Trim(line)[k + 1..])))
  {
    var input := Trim(line);
    assert Parse(line) == Normal(ToAll(AfterColon(input)));
    if ':' !in input {
      TrimIdempotent(line);
    }
    forall k | 0 <= k < |input| && input[k] == ':' && ':' !in input[..k]
      ensures AfterColon(input) == Trim(input[k + 1..])
    {
      AfterFirstColon(input, k);
    }
  }

  lemma AfterFirstColon(input: string, k: nat)
    requires k < |input| && input[k] == ':' && ':' !in input[..k]
    ensures AfterColon(input) == Trim(input[k + 1..])
  {
    IndexOfUnique(input, ':', k);
  }

  /** A text that neither starts nor ends with a trimmed character is its
      own trim. */
  lemma TrimOfSolid(x: string)
    requires x != [] && !IsTrimmed(x[0]) && !IsTrimmed(x[|x| - 1])
    ensures Trim(x) == x
  {
    TrimOfPadded([], x, []);
    assert [] + x + [] == x;
  }

  /** How the line "message <dest>: <text>" is cut up: it is already
      trimmed, its first ':' follows the name, and lower-casing it
      lower-cases the name. */
  lemma PrivateLineShape(dest: string, text: string)
    requires IsValidName(dest) && text != [] && Trim(text) == text
    ensures var line := "message " + dest + ": " + text;
      && Trim(line) == line
      && IndexOf(line, ':') == 8 + |dest|
      && line[7..8 + |dest|] == [' '] + dest
      && line[8 + |dest| + 1..] == [' '] + text
      && ToLower(line)[..8 + |dest| + 1] == "message " + ToLower(dest) + ":"
  {
    var head := "message " + dest;
    var tail := " " + text;
    var line := head + [':'] + tail;
    assert line == "message " + dest + ": " + text;
    LineCut(head, tail, dest, text);
    LineLower(head, tail, dest);
  }

  /** The trim and the first ':' of `head + ":" + tail`. */
  lemma LineCut(head: string, tail: string, dest: string, text: string)
    requires IsValidName(dest) && text != [] && Trim(text) == text
    requires head == "message " + dest && tail == " " + text
    ensures var line := head + [':'] + tail;
      && Trim(line) == line
      && IndexOf(line, ':') == 8 + |dest|
      && line[7..8 + |dest|] == [' '] + dest
      && line[8 + |dest| + 1..] == [' '] + text
  {
    var line := head + [':'] + tail;
    NameHasNoSeparators(dest);
    assert !IsTrimmed(text[0]) && !IsTrimmed(text[|text| - 1]);
    assert line[0] == 'm';
    assert line[|line| - 1] == text[|text| - 1];
    TrimOfSolid(line);
    assert ':' !in head;
    IndexOfFirst(head, ':', tail);
    assert line[7..8 + |dest|] == head[7..];
    assert line[8 + |dest| + 1..] == tail;
  }

  /** Lower-casing `head + ":" + tail` lower-cases the name in `head`. */
  lemma LineLower(head: string, tail: string, dest: string)
    requires head == "message " + dest
    ensures ToLower(head + [':'] + tail)[..|head| + 1] == "message " + ToLower(dest) + ":"
  {
    ToLowerAppend(head + [':'], tail);
    ToLowerAppend(head, [':']);
    ToLowerAppend("message ", dest);
    assert ToLower(head + [':'] + tail)[..|head| + 1] == ToLower(head + [':']);
  }

  /** `Parse` on a trimmed "message" line that is not a "message all" line
      and has a ':'. */
  lemma ParseOfPrivateLine(line: string)
    requires Trim(line) == line && IndexOf(line, ':') >= 7
    requires StartsWith(ToLower(line), "message") && !StartsWith(ToLower(line), "message all")
    ensures Parse(line) == Normal(ToOne(Trim(line[7..IndexOf(line, ':')]), Trim(line[IndexOf(line, ':') + 1..])))
  {
    var i := IndexOf(line, ':');
    assert Parse(line) == Private(line);
    assert Substring(line, 7, i) == Normal(line[7..i]);
  }

  /** `Parse` on a trimmed "message all" line. */
  lemma ParseOfPublicLine(line: string)
    requires Trim(line) == line && StartsWith(ToLower(line), "message all")
    ensures Parse(line) == Normal(ToAll(Trim(line[IndexOf(line, ':') + 1..])))
  {
    assert Parse(line) == Classify(line);
  }

  /** The line a user types to send `text` to `dest` is read back as that
      request, provided the name does not begin with "all". */
  lemma PrivateMessageRoundTrip(dest: string, text: string)
    requires IsValidName(dest) && !StartsWith(ToLower(dest), "all")
    requires text != [] && Trim(text) == text
    ensures Parse("message " + dest + ": " + text) == Normal(ToOne(dest, text))
  {
    var line := "message " + dest + ": " + text;
    PrivateLineShape(dest, text);
    PrivateLineIsNotPublic(line, dest);
    PrivateLineText(line, dest, text);
  }

  /** A line whose lower case begins "message <dest>:" is a "message" line,
      and not a "message all" line unless the name begins with "all". */
  lemma PrivateLineIsNotPublic(line: string, dest: string)
    requires |line| >= 9 + |dest|
    requires ToLower(line)[..9 + |dest|] == "message " + ToLower(dest) + ":"
    requires !StartsWith(ToLower(dest), "all")
    ensures StartsWith(ToLower(line), "message") && !StartsWith(ToLower(line), "message all")
  {
    var n := |dest|;
    var lower := ToLower(line);
    var pre := lower[..9 + n];
    assert lower[..7] == pre[..7];
    if n >= 3 {
      assert lower[8..11] == pre[8..11] == ToLower(dest)[..3];
    } else {
      assert lower[8 + n] == pre[8 + n] == ':';
    }
  }

  /** `Parse` on a trimmed private-message line cut up as `PrivateLineShape`
      says. */
  lemma PrivateLineText(line: string, dest: string, text: string)
    requires Trim(line) == line && IndexOf(line, ':') == 8 + |dest|
    requires StartsWith(ToLower(line), "message") && !StartsWith(ToLower(line), "message all")
    requires line[7..8 + |dest|] == [' '] + dest && line[8 + |dest| + 1..] == [' '] + text
    requires IsValidName(dest) && text != [] && Trim(text) == text
    ensures Parse(line) == Normal(ToOne(dest, text))
  {
    TrimOfSolid(dest);
    SpaceThenTrimmed(dest);
    SpaceThenTrimmed(text);
    ParseOfPrivateLine(line);
  }

  /** A "message" line to a name beginning with "all" starts with
      "message all". */
  lemma AllNameLineIsPublic(dest: string, text: string)
    requires IsValidName(dest) && StartsWith(ToLower(dest), "all")
    requires text != [] && Trim(text) == text
    ensures StartsWith(ToLower("message " + dest + ": " + text), "message all")
  {
    var line := "message " + dest + ": " + text;
    PrivateLineShape(dest, text);
    var lower := ToLower(line);
    var pre := lower[..|dest| + 9];
    assert pre == "message " + ToLower(dest) + ":";
    assert ToLower(dest)[..3] == "all";
    assert lower[..11] == pre[..11];
    assert pre[..11] == "message " + ToLower(dest)[..3];
  }

  /** The prefix test sends a private message to a name beginning with
      "all" (in any case) to everyone, with the text after the first ':'. */
  lemma NameStartingWithAllReachesEveryone(dest: string, text: string)
    requires IsValidName(dest) && StartsWith(ToLower(dest), "all")
    requires text != [] && Trim(text) == text
    ensures Parse("message " + dest + ": " + text) == Normal(ToAll(text))
  {
    var line := "message " + dest + ": " + text;
    PrivateLineShape(dest, text);
    AllNameLineIsPublic(dest, text);
    PublicLineText(line, text);
  }

  lemma PublicLineText(line: string, text: string)
    requires Trim(line) == line && StartsWith(ToLower(line), "message all")
    requires line[IndexOf(line, ':') + 1..] == [' '] + text
    requires text != [] && Trim(text) == text
    ensures Parse(line) == Normal(ToAll(text))
  {
    SpaceThenTrimmed(text);
    ParseOfPublicLine(line);
  }

  /** One leading space is trimmed away from a trimmed, non-empty text. */
  lemma SpaceThenTrimmed(text: string)
    requires text != [] && Trim(text) == text
    ensures Trim([' '] + text) == text
  {
    assert !IsTrimmed(text[0]) && !IsTrimmed(text[|text| - 1]);
    TrimOfPadded([' '], text, []);
    assert [' '] + text + [] == [' '] + text;
  }

  // ---------------------------------------------------------------- the main loop

  /** A console line, and whether the write it causes fails. */
  datatype Typed = Typed(line: string, broken: bool)

  /** How `main`'s loop ends: `isRunning()` is false, `nextLine()` finds no
      more input, or a line made `substring` throw. */
  datatype ConsoleEnd = NotRunning | OutOfInput | Crashed

  /** The client call a command makes; "logout" calls `stop()`. */
  function Execute(c: CS.Client, cmd: Command, broken: bool): CS.Client
  {
    match cmd
    case ToAll(t) => CS.MessageAll(c, Val(t), broken)
    case ToOne(d, t) => CS.MessageOne(c, Val(d), Val(t), broken)
    case ListUsers => CS.ListNames(c, broken)
    case LogOut => CS.Stop(c)
    case Invalid => c
  }

  /** `main`'s loop over the console lines. */
  function Console(c: CS.Client, lines: seq<Typed>): (CS.Client, ConsoleEnd)
    decreases |lines|
  {
    if !c.running then (c, NotRunning)
    else if lines == [] then (c, OutOfInput)
    else
      match Parse(lines[0].line)
      case Thrown => (c, Crashed)
      case Normal(cmd) => Console(Execute(c, cmd, lines[0].broken), lines[1..])
  }

  /** Nothing the console does resets `running`: once the client runs, the
      loop ends only when the input does or a line throws. */
  lemma {:induction false} ConsoleNeverSeesStop(c: CS.Client, lines: seq<Typed>)
    requires c.running
    ensures Console(c, lines).1 != NotRunning
    ensures Console(c, lines).0.running
    decreases |lines|
  {
    if lines != [] && Parse(lines[0].line).Normal? {
      ConsoleNeverSeesStop(Execute(c, Parse(lines[0].line).value, lines[0].broken), lines[1..]);
    }
  }

  /** After "logout" closed the stream, the loop goes on reading but nothing
      more reaches the server. */
  lemma {:induction false} NothingSentAfterLogout(c: CS.Client, lines: seq<Typed>)
    requires c.outClosed
    ensures Console(c, lines).0.sent == c.sent
    ensures Console(c, lines).0.outClosed
    decreases |lines|
  {
    if c.running && lines != [] && Parse(lines[0].line).Normal? {
      NothingSentAfterLogout(Execute(c, Parse(lines[0].line).value, lines[0].broken), lines[1..]);
    }
  }

  /** A message the client's console may send under `name`: a chat message
      from that name or a request for the names. */
  predicate FromClient(m: Message, name: Nullable<string>)
  {
    (m.Chat? && name.Val? && m.source == name.value) || m == NameRequest(name)
  }

  /** One command sends at most one message, and it comes from the client. */
  lemma ExecuteSendsClientRequest(c: CS.Client, cmd: Command, broken: bool)
    requires c.name.Val?
    ensures var d := Execute(c, cmd, broken);
      d.name == c.name &&
      (d.sent == c.sent || (d.sent == c.sent + [d.sent[|c.sent|]] && FromClient(d.sent[|c.sent|], c.name)))
  {
  }

  /** Every message the console sends is one of the client's requests,
      made under its current name. */
  lemma {:induction false} ConsoleSendsClientRequests(c: CS.Client, lines: seq<Typed>)
    requires c.name.Val?
    ensures var d := Console(c, lines).0;
      |d.sent| >= |c.sent| && d.sent[..|c.sent|] == c.sent &&
      forall k :: |c.sent| <= k < |d.sent| ==> FromClient(d.sent[k], c.name)
    decreases |lines|
  {
    if c.running && lines != [] && Parse(lines[0].line).Normal? {
      var cmd := Parse(lines[0].line).value;
      var c1 := Execute(c, cmd, lines[0].broken);
      ExecuteSendsClientRequest(c, cmd, lines[0].broken);
      ConsoleSendsClientRequests(c1, lines[1..]);
      var d := Console(c1, lines[1..]).0;
      assert d == Console(c, lines).0;
      assert d.sent[..|c1.sent|] == c1.sent;
      forall k | |c.sent| <= k < |d.sent| ensures FromClient(d.sent[k], c.name) {
        if k < |c1.sent| {
          assert d.sent[k] == c1.sent[k];
        }
      }
      assert d.sent[..|c.sent|] == c1.sent[..|c.sent|];
    }
  }

  /** `main` after the argument checks: the client it creates, renamed to
      "Name". `run()` runs on another thread and is not part of this call. */
  method Launch(args: seq<string>) returns (r: Startup, client: ChatClient.ChatClient?)
    ensures r == CheckArgs(args)
    ensures r.Connect? <==> client != null
    ensures client != null ==>
      fresh(client) && client.serverAddress == args[0] &&
      client.Current() == CS.UpdateName(CS.Initial(), Val("Name"))
  {
    r := CheckArgs(args);
    client := null;
    if r.Connect? {
      client := new ChatClient.ChatClient(args[0]);
      client.UpdateName(Val("Name"));
    }
  }

  /** `main`'s loop, run against `client` in whatever state its `run()`
      thread has left it. */
  method ConsoleLoop(client: ChatClient.ChatClient, lines: seq<Typed>) returns (end: ConsoleEnd)
    modifies client
    ensures (client.Current(), end) == Console(old(client.Current()), lines)
  {
    var i := 0;
    while i < |lines| && client.running
      invariant 0 <= i <= |lines|
      invariant Console(client.Current(), lines[i..]) == Console(old(client.Current()), lines)
      decreases |lines| - i
    {
      var cmd := Parse(lines[i].line);
      assert lines[i..][1..] == lines[i + 1..];
      if cmd.Thrown? {
        return Crashed;
      }
      var broken := lines[i].broken;
      ghost var before := client.Current();
      assert Console(before, lines[i..]) == Console(Execute(before, cmd.value, broken), lines[i + 1..]);
      match cmd.value {
        case ToAll(t) => client.MessageAll(Val(t), broken);
        case ToOne(d, t) => client.MessageOne(Val(d), Val(t), broken);
        case ListUsers => client.ListNames(broken);
        case LogOut => client.Stop();
        case Invalid =>
      }
      assert client.Current() == Execute(before, cmd.value, broken);
      i := i + 1;
    }
    if !client.running {
      return NotRunning;
    }
    assert lines[i..] == [];
    return OutOfInput;
  }

  // ---------------------------------------------------------------- hasName

  /** The listener's `hasName` after it receives `m`. */
  function HasNameAfter(hasName: bool, m: Message): bool
  {
    if m.LoginResponse? then m.accepted else hasName
  }

  /** `hasName` after the messages `ms`, starting from false. */
  function HasName(ms: seq<Message>): bool
    decreases |ms|
  {
    if ms == [] then false else HasNameAfter(HasName(ms[..|ms| - 1]), ms[|ms| - 1])
  }

  /** `hasName` holds exactly when the last login response received was an
      acceptance. */
  lemma {:induction false} HasNameIsLastVerdict(ms: seq<Message>)
    ensures HasName(ms) <==>
      exists i :: 0 <= i < |ms| && ms[i].LoginResponse? && ms[i].accepted &&
        forall j :: i < j < |ms| ==> !ms[j].LoginResponse?
    decreases |ms|
  {
    if ms != [] {
      var p := ms[..|ms| - 1];
      var last := ms[|ms| - 1];
      HasNameIsLastVerdict(p);
      if HasName(ms) && !last.LoginResponse? {
        var i :| 0 <= i < |p| && p[i].LoginResponse? && p[i].accepted &&
          forall j :: i < j < |p| ==> !p[j].LoginResponse?;
        assert ms[i] == p[i];
        assert forall j :: i < j < |ms| ==> !ms[j].LoginResponse? by {
          forall j | i < j < |ms| ensures !ms[j].LoginResponse? {
            if j < |p| { assert ms[j] == p[j]; }
          }
        }
      }
      if exists i :: 0 <= i < |ms| && ms[i].LoginResponse? && ms[i].accepted &&
           forall j :: i < j < |ms| ==> !ms[j].LoginResponse? {
        var i :| 0 <= i < |ms| && ms[i].LoginResponse? && ms[i].accepted &&
          forall j :: i < j < |ms| ==> !ms[j].LoginResponse?;
        if i < |p| {
          assert p[i] == ms[i];
          assert forall j :: i < j < |p| ==> p[j] == ms[j];
        }
      }
    }
  }
}
