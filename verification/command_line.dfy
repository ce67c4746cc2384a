/** The argument handling at the start of `main`: the argument count check and
    the conversion of the device address, before any device I/O. */
module CommandLine {
  import opened Strtoul

  newtype uint8 = x: int | 0 <= x < 256

  /** `std::numeric_limits<uint8_t>::max()`. */
  const UINT8_MAX: nat := 255

  /** `static_cast<uint8_t>`: keeps the low eight bits. */
  function Narrow(v: nat): uint8 {
    (v % 256) as uint8
  }

  /** How `main` leaves the argument check: with the bus path and address to
      build the node from, or through one of its three `return -1` exits, or by
      the uncaught `std::out_of_range` that terminates the process. */
  datatype Startup =
    | Start(devDirectory: string, devAddress: uint8)
    | InvalidArguments   // "Invalid command line arguments!"
    | AddressNotValid    // "Device I2C adress is not valid!"
    | NotAnAddress       // "... is not a proper I2C adress!"
    | Terminated         // std::out_of_range escapes main

  /** `argv` includes the program name, so `argc == |argv|`. */
  function ParseArgs(argv: seq<string>): (r: Startup)
    ensures r == InvalidArguments <==> |argv| != 3
    ensures r.Start? <==> |argv| == 3 && Stoul16(argv[2]).Converted? && Stoul16(argv[2]).value <= UINT8_MAX
    ensures r.Start? ==> r.devDirectory == argv[1] && r.devAddress as int == Stoul16(argv[2]).value
    ensures r == Terminated <==> |argv| == 3 && Stoul16(argv[2]) == OutOfRange
    ensures r == NotAnAddress <==> |argv| == 3 && Stoul16(argv[2]) == InvalidArgument
    ensures r == AddressNotValid <==> |argv| == 3 && Stoul16(argv[2]).Converted? && Stoul16(argv[2]).value > UINT8_MAX
  {
    if |argv| != 3 then InvalidArguments
    else
      match Stoul16(argv[2])
      case InvalidArgument => NotAnAddress
      case OutOfRange => Terminated
      case Converted(v) =>
        if v > UINT8_MAX then AddressNotValid else Start(argv[1], Narrow(v))
  }

  /** An address with no hex digit after its white space and sign is refused
      through the `std::invalid_argument` handler, and only such an address is. */
  lemma NotAnAddressIffNoLeadingDigit(prog: string, dir: string, address: string)
    ensures ParseArgs([prog, dir, address]) == NotAnAddress <==> !HasLeadingDigit(address)
  {
    InvalidArgumentIffNoLeadingDigit(address);
  }

  /** An argument that converts to an 8-bit value is accepted as that value. */
  lemma ConvertedAddressAccepted(prog: string, dir: string, address: string, a: uint8)
    requires Stoul16(address) == Converted(a as nat)
    ensures ParseArgs([prog, dir, address]) == Start(dir, a)
  {
    var argv := [prog, dir, address];
    assert argv[1] == dir && argv[2] == address;
  }

  /** Every 8-bit address, spelled in hex with or without `0x`, is accepted as
      itself. */
  lemma AddressRoundTrip(prog: string, dir: string, a: uint8)
    ensures ParseArgs([prog, dir, ToHex(a as nat)]) == Start(dir, a)
    ensures ParseArgs([prog, dir, "0x" + ToHex(a as nat)]) == Start(dir, a)
    ensures ParseArgs([prog, dir, "0X" + ToHex(a as nat)]) == Start(dir, a)
  {
    var h := ToHex(a as nat);
    assert h + [] == h;
    ToHexRoundTrip(a as nat, []);
    ConvertedAddressAccepted(prog, dir, h, a);
    PrefixedRoundTrip(a as nat, 'x', []);
    assert "0x" + h + [] == "0x" + h;
    ConvertedAddressAccepted(prog, dir, "0x" + h, a);
    PrefixedRoundTrip(a as nat, 'X', []);
    assert "0X" + h + [] == "0X" + h;
    ConvertedAddressAccepted(prog, dir, "0X" + h, a);
  }

  /** Every value above 255 that fits `unsigned long` is refused as not valid. */
  lemma LargeAddressRefused(prog: string, dir: string, n: nat)
    requires UINT8_MAX < n <= ULONG_MAX
    ensures ParseArgs([prog, dir, ToHex(n)]) == AddressNotValid
  {
    assert ToHex(n) + [] == ToHex(n);
    ToHexRoundTrip(n, []);
  }

  /** Every spelling `strtoul` reads as an 8-bit address is accepted as that
      address: white space, an optional plus sign, an optional `0x`/`0X` prefix
      and leading zeros in front, the digits in either case, anything that
      cannot extend them behind. */
  lemma AddressSpellingAccepted(prog: string, dir: string, w: string, sign: string, prefix: string,
                                zeros: string, d: string, a: uint8, rest: string)
    requires AllSpace(w)
    requires sign == "" || sign == "+"
    requires prefix == "" || prefix == "0x" || prefix == "0X"
    requires AllZeros(zeros)
    requires AllHexDigits(d) && Lower(d) == ToHex(a as nat)
    requires Stops(prefix + zeros + d, rest)
    ensures ParseArgs([prog, dir, w + sign + prefix + zeros + d + rest]) == Start(dir, a)
  {
    SpellingRoundTrip(w, sign, prefix, zeros, d, a as nat, rest);
    ConvertedAddressAccepted(prog, dir, w + sign + prefix + zeros + d + rest, a);
  }

  /** Whatever the spelling, a value from 256 to ULONG_MAX is refused as not
      valid: " 0X1FF" and "01ff" like "1ff". */
  lemma LargeSpellingRefused(prog: string, dir: string, w: string, sign: string, prefix: string,
                             zeros: string, d: string, n: nat, rest: string)
    requires AllSpace(w)
    requires sign == "" || sign == "+"
    requires prefix == "" || prefix == "0x" || prefix == "0X"
    requires AllZeros(zeros)
    requires AllHexDigits(d) && Lower(d) == ToHex(n)
    requires UINT8_MAX < n <= ULONG_MAX
    requires Stops(prefix + zeros + d, rest)
    ensures ParseArgs([prog, dir, w + sign + prefix + zeros + d + rest]) == AddressNotValid
  {
    SpellingRoundTrip(w, sign, prefix, zeros, d, n, rest);
  }

  /** Characters after the digits are ignored: "a0zz" and "a0x" are accepted
      as 0xA0. */
  lemma TrailingCharactersIgnored(prog: string, dir: string, a: uint8, rest: string)
    requires Stops(ToHex(a as nat), rest)
    ensures ParseArgs([prog, dir, ToHex(a as nat) + rest]) == Start(dir, a)
  {
    ToHexRoundTrip(a as nat, rest);
    ConvertedAddressAccepted(prog, dir, ToHex(a as nat) + rest, a);
  }

  /** "a0" is accepted as 0xA0 = 160. */
  lemma ExampleAccepted()
    ensures ParseArgs(["bno055_node", "/dev/i2c-1", "a0"]) == Start("/dev/i2c-1", 0xA0)
  {
    assert ToHex(0xA0) == "a0";
    AddressRoundTrip("bno055_node", "/dev/i2c-1", 0xA0);
  }

  /** " 0XA0", upper-case prefix and digits after a space, is accepted as 160. */
  lemma ExampleUpperCase()
    ensures ParseArgs(["bno055_node", "/dev/i2c-1", " 0XA0"]) == Start("/dev/i2c-1", 0xA0)
  {
    assert ToHex(0xA0) == "a0";
    assert Lower("A0") == "a0";
    assert " " + "" + "0X" + "" + "A0" + [] == " 0XA0";
    AddressSpellingAccepted("bno055_node", "/dev/i2c-1", " ", "", "0X", "", "A0", 0xA0, []);
  }

  /** "1ff" = 511 is refused as not valid. */
  lemma ExampleTooLarge()
    ensures ParseArgs(["bno055_node", "/dev/i2c-1", "1ff"]) == AddressNotValid
  {
    assert ToHex(0x1F) == "1f";
    assert ToHex(0x1FF) == "1ff";
    LargeAddressRefused("bno055_node", "/dev/i2c-1", 0x1FF);
  }

  /** "zz" and the empty string hold no digit and are refused. */
  lemma ExampleNoDigits()
    ensures ParseArgs(["bno055_node", "/dev/i2c-1", "zz"]) == NotAnAddress
    ensures ParseArgs(["bno055_node", "/dev/i2c-1", ""]) == NotAnAddress
  {
    assert Span("zz", IsSpace) == 0;
    NotAnAddressIffNoLeadingDigit("bno055_node", "/dev/i2c-1", "zz");
    NotAnAddressIffNoLeadingDigit("bno055_node", "/dev/i2c-1", "");
  }

  /** As written, a minus sign wraps the value round 2^64 before the range check,
      so for every address 1..255 some negative input is accepted as it:
      "-ffffffffffffffff" is accepted as 0x01. */
  lemma NegativeAddressAccepted(prog: string, dir: string, a: uint8)
    requires a != 0
    ensures ParseArgs([prog, dir, "-" + ToHex(ULONG_MAX + 1 - a as nat)]) == Start(dir, a)
  {
    NegativeWraps(ULONG_MAX + 1 - a as nat);
  }

  /** The address check with a minus sign taken as a negative number: only
      the values 0..255 themselves are accepted. Otherwise the same as
      `ParseArgs`, including the uncaught `std::out_of_range`. */
  function ParseArgsSigned(argv: seq<string>): (r: Startup)
    ensures r.Start? ==> |argv| == 3 && r.devDirectory == argv[1]
  {
    if |argv| != 3 then InvalidArguments
    else
      match ParseSubject(argv[2])
      case NoDigits => NotAnAddress
      case Digits(negative, m) =>
        if m > ULONG_MAX then Terminated
        else if (negative && m != 0) || m > UINT8_MAX then AddressNotValid
        else Start(argv[1], m as uint8)
  }

  /** The number a subject spells, sign included. */
  function SignedValue(sub: Subject): int
    requires sub.Digits?
  {
    if sub.negative then -(sub.magnitude as int) else sub.magnitude
  }

  /** The signed check accepts exactly the subjects whose signed value lies in
      0..255, agrees with `ParseArgs` on every input without a minus sign, and
      refuses every negative non-zero address. */
  lemma ParseArgsSignedCorrect(argv: seq<string>)
    ensures ParseArgsSigned(argv).Start? <==>
      |argv| == 3 && ParseSubject(argv[2]).Digits? && 0 <= SignedValue(ParseSubject(argv[2])) <= UINT8_MAX
    ensures ParseArgsSigned(argv).Start? ==> ParseArgsSigned(argv).devAddress as int == ParseSubject(argv[2]).magnitude
    ensures |argv| == 3 && !IsNegative(argv[2]) ==> ParseArgsSigned(argv) == ParseArgs(argv)
  {
  }

  lemma NegativeAddressRefused(prog: string, dir: string, m: nat)
    requires 0 < m <= ULONG_MAX
    ensures ParseArgsSigned([prog, dir, "-" + ToHex(m)]) == AddressNotValid
  {
    NegativeWraps(m);
  }

  /** The 64-bit all-ones value is spelled with sixteen `f`s, so with a = 1
      `NegativeAddressAccepted` is about the input "-ffffffffffffffff". */
  lemma AllOnesSpelling()
    ensures ToHex(ULONG_MAX) == "ffffffffffffffff"
  {
    assert ToHex(0xF) == "f";
    assert ToHex(0xFF) == "ff";
    assert ToHex(0xFFF) == "fff";
    assert ToHex(0xFFFF) == "ffff";
    assert ToHex(0xF_FFFF) == "fffff";
    assert ToHex(0xFF_FFFF) == "ffffff";
    assert ToHex(0xFFF_FFFF) == "fffffff";
    assert ToHex(0xFFFF_FFFF) == "ffffffff";
    assert ToHex(0xF_FFFF_FFFF) == "fffffffff";
    assert ToHex(0xFF_FFFF_FFFF) == "ffffffffff";
    assert ToHex(0xFFF_FFFF_FFFF) == "fffffffffff";
    assert ToHex(0xFFFF_FFFF_FFFF) == "ffffffffffff";
    assert ToHex(0xF_FFFF_FFFF_FFFF) == "fffffffffffff";
    assert ToHex(0xFF_FFFF_FFFF_FFFF) == "ffffffffffffff";
    assert ToHex(0xFFF_FFFF_FFFF_FFFF) == "fffffffffffffff";
  }
}
