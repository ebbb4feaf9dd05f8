/** The checksum of a range vector (src/chromium/metrics/histogram.cc): a table-driven CRC-32
    without the inversions, four bytes for each 32-bit entry, least significant byte first. */
module Crc {

  // ---- Words. The proofs below combine bit-vector facts by name, so the operations have names.

  function Xor(s: bv32, t: bv32): bv32 {
    s ^ t
  }

  function Low(s: bv32): (b: bv32)
    ensures b < 256
  {
    s & 0xff
  }

  function High(s: bv32): bv32 {
    s & 0xffff_ff00
  }

  function Down(s: bv32): bv32 {
    s >> 8
  }

  function Up(s: bv32): bv32 {
    s << 8
  }

  // ---- The polynomial, one bit at a time -------------------------------------------------

  function Shift(s: bv32): bv32 {
    if s & 1 == 1 then (s >> 1) ^ 0xedb88320 else s >> 1
  }

  lemma ShiftInjective(s: bv32, t: bv32)
    requires Shift(s) == Shift(t)
    ensures s == t
  {
  }

  lemma Bit(s: bv32)
    ensures s & 1 == 0 || s & 1 == 1
  {
  }

  lemma ShiftOddOdd(s: bv32, t: bv32)
    requires s & 1 == 1 && t & 1 == 1
    ensures Shift(Xor(s, t)) == Xor(Shift(s), Shift(t))
  {
  }

  lemma ShiftOddEven(s: bv32, t: bv32)
    requires s & 1 == 1 && t & 1 == 0
    ensures Shift(Xor(s, t)) == Xor(Shift(s), Shift(t))
  {
  }

  lemma ShiftEvenOdd(s: bv32, t: bv32)
    requires s & 1 == 0 && t & 1 == 1
    ensures Shift(Xor(s, t)) == Xor(Shift(s), Shift(t))
  {
  }

  lemma ShiftEvenEven(s: bv32, t: bv32)
    requires s & 1 == 0 && t & 1 == 0
    ensures Shift(Xor(s, t)) == Xor(Shift(s), Shift(t))
  {
  }

  lemma ShiftLinear(s: bv32, t: bv32)
    ensures Shift(Xor(s, t)) == Xor(Shift(s), Shift(t))
  {
    hide *;
    Bit(s);
    Bit(t);
    if s & 1 == 1 {
      if t & 1 == 1 { ShiftOddOdd(s, t); } else { ShiftOddEven(s, t); }
    } else {
      if t & 1 == 1 { ShiftEvenOdd(s, t); } else { ShiftEvenEven(s, t); }
    }
  }

  /** `n` divisions by the polynomial. */
  function Shifted(s: bv32, n: nat): bv32 {
    if n == 0 then s else Shift(Shifted(s, n - 1))
  }

  function Shift8(s: bv32): bv32 {
    Shift(Shift(Shift(Shift(Shift(Shift(Shift(Shift(s))))))))
  }

  lemma {:induction false} ShiftedLinear(s: bv32, t: bv32, n: nat)
    ensures Shifted(Xor(s, t), n) == Xor(Shifted(s, n), Shifted(t, n))
  {
    hide Xor, Shift;
    if n > 0 {
      ShiftedLinear(s, t, n - 1);
      ShiftLinear(Shifted(s, n - 1), Shifted(t, n - 1));
    }
  }

  lemma {:induction false} ShiftedInjective(s: bv32, t: bv32, n: nat)
    requires Shifted(s, n) == Shifted(t, n)
    ensures s == t
  {
    hide Shift;
    if n > 0 {
      ShiftInjective(Shifted(s, n - 1), Shifted(t, n - 1));
      ShiftedInjective(s, t, n - 1);
    }
  }

  lemma EightShifts(s: bv32, n: nat)
    ensures Shifted(s, n + 8) == Shift8(Shifted(s, n))
  {
    hide Shift;
    var x1 := Shifted(s, n + 1);
    var x2 := Shifted(s, n + 2);
    var x3 := Shifted(s, n + 3);
    var x4 := Shifted(s, n + 4);
    var x5 := Shifted(s, n + 5);
    var x6 := Shifted(s, n + 6);
    var x7 := Shifted(s, n + 7);
  }

  // ---- The table -------------------------------------------------------------------------

  /** `kCrcTable`, four entries a line. */
  function Table(i: bv32): bv32
    requires i < 256
  {
    if i < 4 then (if i < 2 then (if i < 1 then 0x00000000 else 0x77073096) else (if i < 3 then 0xee0e612c else 0x990951ba))
    else if i < 8 then (if i < 6 then (if i < 5 then 0x076dc419 else 0x706af48f) else (if i < 7 then 0xe963a535 else 0x9e6495a3))
    else if i < 12 then (if i < 10 then (if i < 9 then 0x0edb8832 else 0x79dcb8a4) else (if i < 11 then 0xe0d5e91e else 0x97d2d988))
    else if i < 16 then (if i < 14 then (if i < 13 then 0x09b64c2b else 0x7eb17cbd) else (if i < 15 then 0xe7b82d07 else 0x90bf1d91))
    else if i < 20 then (if i < 18 then (if i < 17 then 0x1db71064 else 0x6ab020f2) else (if i < 19 then 0xf3b97148 else 0x84be41de))
    else if i < 24 then (if i < 22 then (if i < 21 then 0x1adad47d else 0x6ddde4eb) else (if i < 23 then 0xf4d4b551 else 0x83d385c7))
    else if i < 28 then (if i < 26 then (if i < 25 then 0x136c9856 else 0x646ba8c0) else (if i < 27 then 0xfd62f97a else 0x8a65c9ec))
    else if i < 32 then (if i < 30 then (if i < 29 then 0x14015c4f else 0x63066cd9) else (if i < 31 then 0xfa0f3d63 else 0x8d080df5))
    else if i < 36 then (if i < 34 then (if i < 33 then 0x3b6e20c8 else 0x4c69105e) else (if i < 35 then 0xd56041e4 else 0xa2677172))
    else if i < 40 then (if i < 38 then (if i < 37 then 0x3c03e4d1 else 0x4b04d447) else (if i < 39 then 0xd20d85fd else 0xa50ab56b))
    else if i < 44 then (if i < 42 then (if i < 41 then 0x35b5a8fa else 0x42b2986c) else (if i < 43 then 0xdbbbc9d6 else 0xacbcf940))
    else if i < 48 then (if i < 46 then (if i < 45 then 0x32d86ce3 else 0x45df5c75) else (if i < 47 then 0xdcd60dcf else 0xabd13d59))
    else if i < 52 then (if i < 50 then (if i < 49 then 0x26d930ac else 0x51de003a) else (if i < 51 then 0xc8d75180 else 0xbfd06116))
    else if i < 56 then (if i < 54 then (if i < 53 then 0x21b4f4b5 else 0x56b3c423) else (if i < 55 then 0xcfba9599 else 0xb8bda50f))
    else if i < 60 then (if i < 58 then (if i < 57 then 0x2802b89e else 0x5f058808) else (if i < 59 then 0xc60cd9b2 else 0xb10be924))
    else if i < 64 then (if i < 62 then (if i < 61 then 0x2f6f7c87 else 0x58684c11) else (if i < 63 then 0xc1611dab else 0xb6662d3d))
    else if i < 68 then (if i < 66 then (if i < 65 then 0x76dc4190 else 0x01db7106) else (if i < 67 then 0x98d220bc else 0xefd5102a))
    else if i < 72 then (if i < 70 then (if i < 69 then 0x71b18589 else 0x06b6b51f) else (if i < 71 then 0x9fbfe4a5 else 0xe8b8d433))
    else if i < 76 then (if i < 74 then (if i < 73 then 0x7807c9a2 else 0x0f00f934) else (if i < 75 then 0x9609a88e else 0xe10e9818))
    else if i < 80 then (if i < 78 then (if i < 77 then 0x7f6a0dbb else 0x086d3d2d) else (if i < 79 then 0x91646c97 else 0xe6635c01))
    else if i < 84 then (if i < 82 then (if i < 81 then 0x6b6b51f4 else 0x1c6c6162) else (if i < 83 then 0x856530d8 else 0xf262004e))
    else if i < 88 then (if i < 86 then (if i < 85 then 0x6c0695ed else 0x1b01a57b) else (if i < 87 then 0x8208f4c1 else 0xf50fc457))
    else if i < 92 then (if i < 90 then (if i < 89 then 0x65b0d9c6 else 0x12b7e950) else (if i < 91 then 0x8bbeb8ea else 0xfcb9887c))
    else if i < 96 then (if i < 94 then (if i < 93 then 0x62dd1ddf else 0x15da2d49) else (if i < 95 then 0x8cd37cf3 else 0xfbd44c65))
    else if i < 100 then (if i < 98 then (if i < 97 then 0x4db26158 else 0x3ab551ce) else (if i < 99 then 0xa3bc0074 else 0xd4bb30e2))
    else if i < 104 then (if i < 102 then (if i < 101 then 0x4adfa541 else 0x3dd895d7) else (if i < 103 then 0xa4d1c46d else 0xd3d6f4fb))
    else if i < 108 then (if i < 106 then (if i < 105 then 0x4369e96a else 0x346ed9fc) else (if i < 107 then 0xad678846 else 0xda60b8d0))
    else if i < 112 then (if i < 110 then (if i < 109 then 0x44042d73 else 0x33031de5) else (if i < 111 then 0xaa0a4c5f else 0xdd0d7cc9))
    else if i < 116 then (if i < 114 then (if i < 113 then 0x5005713c else 0x270241aa) else (if i < 115 then 0xbe0b1010 else 0xc90c2086))
    else if i < 120 then (if i < 118 then (if i < 117 then 0x5768b525 else 0x206f85b3) else (if i < 119 then 0xb966d409 else 0xce61e49f))
    else if i < 124 then (if i < 122 then (if i < 121 then 0x5edef90e else 0x29d9c998) else (if i < 123 then 0xb0d09822 else 0xc7d7a8b4))
    else if i < 128 then (if i < 126 then (if i < 125 then 0x59b33d17 else 0x2eb40d81) else (if i < 127 then 0xb7bd5c3b else 0xc0ba6cad))
    else if i < 132 then (if i < 130 then (if i < 129 then 0xedb88320 else 0x9abfb3b6) else (if i < 131 then 0x03b6e20c else 0x74b1d29a))
    else if i < 136 then (if i < 134 then (if i < 133 then 0xead54739 else 0x9dd277af) else (if i < 135 then 0x04db2615 else 0x73dc1683))
    else if i < 140 then (if i < 138 then (if i < 137 then 0xe3630b12 else 0x94643b84) else (if i < 139 then 0x0d6d6a3e else 0x7a6a5aa8))
    else if i < 144 then (if i < 142 then (if i < 141 then 0xe40ecf0b else 0x9309ff9d) else (if i < 143 then 0x0a00ae27 else 0x7d079eb1))
    else if i < 148 then (if i < 146 then (if i < 145 then 0xf00f9344 else 0x8708a3d2) else (if i < 147 then 0x1e01f268 else 0x6906c2fe))
    else if i < 152 then (if i < 150 then (if i < 149 then 0xf762575d else 0x806567cb) else (if i < 151 then 0x196c3671 else 0x6e6b06e7))
    else if i < 156 then (if i < 154 then (if i < 153 then 0xfed41b76 else 0x89d32be0) else (if i < 155 then 0x10da7a5a else 0x67dd4acc))
    else if i < 160 then (if i < 158 then (if i < 157 then 0xf9b9df6f else 0x8ebeeff9) else (if i < 159 then 0x17b7be43 else 0x60b08ed5))
    else if i < 164 then (if i < 162 then (if i < 161 then 0xd6d6a3e8 else 0xa1d1937e) else (if i < 163 then 0x38d8c2c4 else 0x4fdff252))
    else if i < 168 then (if i < 166 then (if i < 165 then 0xd1bb67f1 else 0xa6bc5767) else (if i < 167 then 0x3fb506dd else 0x48b2364b))
    else if i < 172 then (if i < 170 then (if i < 169 then 0xd80d2bda else 0xaf0a1b4c) else (if i < 171 then 0x36034af6 else 0x41047a60))
    else if i < 176 then (if i < 174 then (if i < 173 then 0xdf60efc3 else 0xa867df55) else (if i < 175 then 0x316e8eef else 0x4669be79))
    else if i < 180 then (if i < 178 then (if i < 177 then 0xcb61b38c else 0xbc66831a) else (if i < 179 then 0x256fd2a0 else 0x5268e236))
    else if i < 184 then (if i < 182 then (if i < 181 then 0xcc0c7795 else 0xbb0b4703) else (if i < 183 then 0x220216b9 else 0x5505262f))
    else if i < 188 then (if i < 186 then (if i < 185 then 0xc5ba3bbe else 0xb2bd0b28) else (if i < 187 then 0x2bb45a92 else 0x5cb36a04))
    else if i < 192 then (if i < 190 then (if i < 189 then 0xc2d7ffa7 else 0xb5d0cf31) else (if i < 191 then 0x2cd99e8b else 0x5bdeae1d))
    else if i < 196 then (if i < 194 then (if i < 193 then 0x9b64c2b0 else 0xec63f226) else (if i < 195 then 0x756aa39c else 0x026d930a))
    else if i < 200 then (if i < 198 then (if i < 197 then 0x9c0906a9 else 0xeb0e363f) else (if i < 199 then 0x72076785 else 0x05005713))
    else if i < 204 then (if i < 202 then (if i < 201 then 0x95bf4a82 else 0xe2b87a14) else (if i < 203 then 0x7bb12bae else 0x0cb61b38))
    else if i < 208 then (if i < 206 then (if i < 205 then 0x92d28e9b else 0xe5d5be0d) else (if i < 207 then 0x7cdcefb7 else 0x0bdbdf21))
    else if i < 212 then (if i < 210 then (if i < 209 then 0x86d3d2d4 else 0xf1d4e242) else (if i < 211 then 0x68ddb3f8 else 0x1fda836e))
    else if i < 216 then (if i < 214 then (if i < 213 then 0x81be16cd else 0xf6b9265b) else (if i < 215 then 0x6fb077e1 else 0x18b74777))
    else if i < 220 then (if i < 218 then (if i < 217 then 0x88085ae6 else 0xff0f6a70) else (if i < 219 then 0x66063bca else 0x11010b5c))
    else if i < 224 then (if i < 222 then (if i < 221 then 0x8f659eff else 0xf862ae69) else (if i < 223 then 0x616bffd3 else 0x166ccf45))
    else if i < 228 then (if i < 226 then (if i < 225 then 0xa00ae278 else 0xd70dd2ee) else (if i < 227 then 0x4e048354 else 0x3903b3c2))
    else if i < 232 then (if i < 230 then (if i < 229 then 0xa7672661 else 0xd06016f7) else (if i < 231 then 0x4969474d else 0x3e6e77db))
    else if i < 236 then (if i < 234 then (if i < 233 then 0xaed16a4a else 0xd9d65adc) else (if i < 235 then 0x40df0b66 else 0x37d83bf0))
    else if i < 240 then (if i < 238 then (if i < 237 then 0xa9bcae53 else 0xdebb9ec5) else (if i < 239 then 0x47b2cf7f else 0x30b5ffe9))
    else if i < 244 then (if i < 242 then (if i < 241 then 0xbdbdf21c else 0xcabac28a) else (if i < 243 then 0x53b39330 else 0x24b4a3a6))
    else if i < 248 then (if i < 246 then (if i < 245 then 0xbad03605 else 0xcdd70693) else (if i < 247 then 0x54de5729 else 0x23d967bf))
    else if i < 252 then (if i < 250 then (if i < 249 then 0xb3667a2e else 0xc4614ab8) else (if i < 251 then 0x5d681b02 else 0x2a6f2b94))
    else (if i < 254 then (if i < 253 then 0xb40bbe37 else 0xc30c8ea1) else (if i < 255 then 0x5a05df1b else 0x2d02ef8d))
  }

  lemma TableShifts(i: bv32)
    requires i < 256
    ensures Table(i) == Shift8(i)
  {
    if i < 32 {
      assert Table(i) == Shift8(i);
    } else if i < 64 {
      assert Table(i) == Shift8(i);
    } else if i < 96 {
      assert Table(i) == Shift8(i);
    } else if i < 128 {
      assert Table(i) == Shift8(i);
    } else if i < 160 {
      assert Table(i) == Shift8(i);
    } else if i < 192 {
      assert Table(i) == Shift8(i);
    } else if i < 224 {
      assert Table(i) == Shift8(i);
    } else {
      assert Table(i) == Shift8(i);
    }
  }

  /** Each entry is its index divided by the polynomial eight times. */
  lemma TableIsPolynomial(i: bv32)
    requires i < 256
    ensures Table(i) == Shifted(i, 8)
  {
    hide Table, Shift8;
    TableShifts(i);
    EightShifts(i, 0);
  }

  /** One round of the loop: `kCrcTable[(sum & 0xff) ^ b] ^ (sum >> 8)`. */
  function ByteStep(sum: bv32, b: bv32): bv32
    requires b < 256
  {
    Xor(Table(Low(Xor(Low(sum), b))), Down(sum))
  }

  lemma HighShifts(s: bv32)
    ensures Shift8(High(s)) == Down(s)
  {
  }

  lemma SplitByte(s: bv32)
    ensures s == Xor(Low(s), High(s))
  {
  }

  lemma ShiftedByTable(s: bv32)
    ensures Shifted(s, 8) == Xor(Table(Low(s)), Down(s))
  {
    hide Table, Shift8, Shifted, Xor, Low, High, Down;
    SplitByte(s);
    ShiftedLinear(Low(s), High(s), 8);
    EightShifts(High(s), 0);
    HighShifts(s);
    assert Shifted(High(s), 0) == High(s) by { NoShift(High(s)); }
    TableIsPolynomial(Low(s));
  }

  lemma NoShift(s: bv32)
    ensures Shifted(s, 0) == s
  {
  }

  lemma FeedsLow(sum: bv32, b: bv32)
    requires b < 256
    ensures Low(Xor(Low(sum), b)) == Low(Xor(sum, b)) && Down(sum) == Down(Xor(sum, b))
  {
  }

  /** A table step feeds a byte in and divides by the polynomial eight times. */
  lemma ByteStepShifts(sum: bv32, b: bv32)
    requires b < 256
    ensures ByteStep(sum, b) == Shifted(Xor(sum, b), 8)
  {
    hide Table, Shifted, Xor, Low, Down;
    FeedsLow(sum, b);
    ShiftedByTable(Xor(sum, b));
  }

  lemma UpIsHigh(b: bv32)
    requires b < 0x100_0000
    ensures High(Up(b)) == Up(b) && Down(Up(b)) == b
  {
  }

  /** A later byte may as well be fed in before the shift. */
  lemma FeedEarlier(s: bv32, b: bv32)
    requires b < 0x100_0000
    ensures Xor(Shifted(s, 8), b) == Shifted(Xor(s, Up(b)), 8)
  {
    hide Shift8, Shifted, Xor, High, Down, Up;
    ShiftedLinear(s, Up(b), 8);
    UpIsHigh(b);
    HighShifts(Up(b));
    EightShifts(Up(b), 0);
    NoShift(Up(b));
  }

  lemma {:induction false} ShiftedTwice(s: bv32, m: nat, n: nat)
    ensures Shifted(Shifted(s, m), n) == Shifted(s, m + n)
  {
    hide Shift;
    if n > 0 {
      ShiftedTwice(s, m, n - 1);
    }
  }

  function Byte(range: bv32, i: nat): (b: bv32)
    requires i < 4
    ensures b < 256
  {
    if i == 0 then range & 0xff
    else if i == 1 then (range >> 8) & 0xff
    else if i == 2 then (range >> 16) & 0xff
    else range >> 24
  }

  /** What one entry does to the sum: 32 divisions of the two combined. */
  function Crc32Of(sum: bv32, range: bv32): bv32 {
    Shifted(Xor(sum, range), 32)
  }

  /** The sum after `i` bytes. */
  function Fed(sum: bv32, range: bv32, i: nat): bv32
    requires i <= 4
  {
    if i == 0 then sum else Shifted(Xor(Fed(sum, range, i - 1), Byte(range, i - 1)), 8)
  }

  /** Four table steps over the bytes of an entry. */
  method Crc32(sum: bv32, range: bv32) returns (r: bv32)
    ensures r == Crc32Of(sum, range)
  {
    hide ByteStep, Shifted, Byte, Xor;
    r := sum;
    for i := 0 to 4
      invariant r == Fed(sum, range, i)
    {
      ByteStepShifts(r, Byte(range, i));
      r := ByteStep(r, Byte(range, i));
    }
    FedAll(sum, range);
  }

  lemma FedAll(sum: bv32, range: bv32)
    ensures Fed(sum, range, 4) == Crc32Of(sum, range)
  {
    hide Shifted, Byte, Xor, Up;
    var x0, b1, b2, b3 := Xor(sum, Byte(range, 0)), Byte(range, 1), Byte(range, 2), Byte(range, 3);
    var x1 := Xor(x0, Up(b1));
    var x2 := Xor(x1, Up(Up(b2)));
    var x3 := Xor(x2, Up(Up(Up(b3))));
    assert Fed(sum, range, 1) == Shifted(x0, 8);
    FeedEarlier(x0, b1);
    assert Fed(sum, range, 2) == Shifted(Shifted(x1, 8), 8);
    FeedTwoEarlier(x1, b2);
    assert Fed(sum, range, 3) == Shifted(Shifted(Shifted(x2, 8), 8), 8);
    FeedThreeEarlier(x2, b3);
    assert Fed(sum, range, 4) == Shifted(Shifted(Shifted(Shifted(x3, 8), 8), 8), 8);
    ShiftedTwice(x3, 8, 8);
    ShiftedTwice(x3, 16, 8);
    ShiftedTwice(x3, 24, 8);
    BytesJoin(sum, range);
  }

  lemma FeedTwoEarlier(s: bv32, b: bv32)
    requires b < 256
    ensures Xor(Shifted(Shifted(s, 8), 8), b) == Shifted(Shifted(Xor(s, Up(Up(b))), 8), 8)
  {
    hide Shifted, Xor, Up;
    FeedEarlier(Shifted(s, 8), b);
    Small(b);
    FeedEarlier(s, Up(b));
  }

  lemma FeedThreeEarlier(s: bv32, b: bv32)
    requires b < 256
    ensures Xor(Shifted(Shifted(Shifted(s, 8), 8), 8), b) == Shifted(Shifted(Shifted(Xor(s, Up(Up(Up(b)))), 8), 8), 8)
  {
    hide Shifted, Xor, Up;
    FeedTwoEarlier(Shifted(s, 8), b);
    Small(b);
    FeedEarlier(s, Up(Up(b)));
  }

  lemma Small(b: bv32)
    requires b < 256
    ensures Up(b) < 0x100_0000 && Up(Up(b)) < 0x100_0000
  {
  }

  lemma BytesJoin(sum: bv32, range: bv32)
    ensures Xor(Xor(Xor(Xor(sum, Byte(range, 0)), Up(Byte(range, 1))), Up(Up(Byte(range, 2)))), Up(Up(Up(Byte(range, 3)))))
         == Xor(sum, range)
  {
    hide *;
    var b0, b1, b2, b3 := Byte(range, 0), Up(Byte(range, 1)), Up(Up(Byte(range, 2))), Up(Up(Up(Byte(range, 3))));
    XorAssociates(sum, b0, b1);
    XorAssociates(sum, Xor(b0, b1), b2);
    XorAssociates(sum, Xor(Xor(b0, b1), b2), b3);
    ByteInPlace(range);
    WordOfBytes(range);
  }

  lemma ByteInPlace(range: bv32)
    ensures Byte(range, 0) == range & 0xff
    ensures Up(Byte(range, 1)) == range & 0xff00
    ensures Up(Up(Byte(range, 2))) == range & 0xff_0000
    ensures Up(Up(Up(Byte(range, 3)))) == range & 0xff00_0000
  {
  }

  lemma WordOfBytes(range: bv32)
    ensures Xor(Xor(Xor(range & 0xff, range & 0xff00), range & 0xff_0000), range & 0xff00_0000) == range
  {
  }

  lemma XorAssociates(a: bv32, b: bv32, c: bv32)
    ensures Xor(Xor(a, b), c) == Xor(a, Xor(b, c))
  {
  }

  lemma XorUndone(a: bv32, b: bv32)
    ensures Xor(a, Xor(a, b)) == b && Xor(Xor(a, b), b) == a
  {
  }

  lemma XorCancels(sum: bv32, range: bv32, sum2: bv32, range2: bv32)
    requires Xor(sum, range) == Xor(sum2, range2)
    ensures sum == sum2 <==> range == range2
  {
    hide Xor;
    XorUndone(sum, range);
    XorUndone(sum2, range2);
  }

  /** The sum tells entries apart, and the entry tells sums apart. */
  lemma Crc32Injective(sum: bv32, range: bv32, sum2: bv32, range2: bv32)
    requires Crc32Of(sum, range) == Crc32Of(sum2, range2)
    ensures sum == sum2 <==> range == range2
  {
    hide Shifted, Xor;
    ShiftedInjective(Xor(sum, range), Xor(sum2, range2), 32);
    XorCancels(sum, range, sum2, range2);
  }

  // ---- Range vectors ---------------------------------------------------------------------

  function ChecksumFrom(seed: bv32, ranges: seq<bv32>): bv32 {
    if ranges == [] then seed else Crc32Of(ChecksumFrom(seed, ranges[..|ranges| - 1]), ranges[|ranges| - 1])
  }

  /** A vector is fed entry by entry, each with 32 divisions, from the front. */
  lemma {:induction false} ChecksumFeeds(seed: bv32, first: bv32, rest: seq<bv32>)
    ensures ChecksumFrom(seed, [first] + rest) == ChecksumFrom(Shifted(Xor(seed, first), 32), rest)
    ensures ChecksumFrom(seed, []) == seed
    decreases |rest|
  {
    hide Shifted, Xor;
    var all := [first] + rest;
    if rest == [] {
      assert all[..0] == [] && all[0] == first;
    } else {
      var n := |rest| - 1;
      assert all[..n + 1] == [first] + rest[..n] && all[n + 1] == rest[n];
      ChecksumFeeds(seed, first, rest[..n]);
    }
  }

  /** Changing any one entry of a vector of any length changes its checksum. */
  lemma {:induction false} OneChangeShows(seed: bv32, ranges: seq<bv32>, i: nat, value: bv32)
    requires i < |ranges| && value != ranges[i]
    ensures ChecksumFrom(seed, ranges[i := value]) != ChecksumFrom(seed, ranges)
    decreases |ranges|
  {
    hide Crc32Of;
    var n := |ranges| - 1;
    var changed := ranges[i := value];
    Distinguish(ChecksumFrom(seed, changed[..n]), changed[n], ChecksumFrom(seed, ranges[..n]), ranges[n]);
    if i < n {
      assert changed[..n] == ranges[..n][i := value];
      OneChangeShows(seed, ranges[..n], i, value);
    } else {
      assert changed[..n] == ranges[..n];
    }
  }

  lemma Distinguish(sum: bv32, range: bv32, sum2: bv32, range2: bv32)
    ensures (sum == sum2) != (range == range2) ==> Crc32Of(sum, range) != Crc32Of(sum2, range2)
  {
    if Crc32Of(sum, range) == Crc32Of(sum2, range2) {
      Crc32Injective(sum, range, sum2, range2);
    }
  }

  // ---- The word of a number --------------------------------------------------------------

  function Bits(v: nat, n: nat): bv32 {
    if n == 0 then 0 else Append(Bits(v / 2, n - 1), v % 2 == 1)
  }

  function Append(x: bv32, bit: bool): bv32 {
    (x << 1) | (if bit then 1 else 0)
  }

  /** Ones above the low `n` bits. */
  function Mask(n: nat): bv32 {
    if n == 0 then 0xffff_ffff else Mask(n - 1) << 1
  }

  predicate Apart(x: bv32, m: bv32) {
    x & m == 0
  }

  lemma AppendApart(x: bv32, m: bv32, bit: bool)
    requires Apart(x, m)
    ensures Apart(Append(x, bit), m << 1)
  {
  }

  lemma {:induction false} BitsApart(v: nat, n: nat)
    ensures Apart(Bits(v, n), Mask(n))
  {
    if n > 0 {
      hide Append, Apart;
      BitsApart(v / 2, n - 1);
      AppendApart(Bits(v / 2, n - 1), Mask(n - 1), v % 2 == 1);
    }
  }

  lemma {:induction false} MaskNested(n: nat)
    ensures Mask(n) | (Mask(n) << 1) == Mask(n)
  {
    if n > 0 {
      MaskNested(n - 1);
      NestedShift(Mask(n - 1));
    }
  }

  lemma NestedShift(m: bv32)
    requires m | (m << 1) == m
    ensures (m << 1) | ((m << 1) << 1) == m << 1
  {
  }

  lemma NestedTop(m: bv32)
    requires m | (m << 1) == m && (m << 1) & 0x8000_0000 == 0x8000_0000
    ensures m & 0x8000_0000 == 0x8000_0000
  {
  }

  lemma {:induction false} MaskTop(n: nat)
    requires n <= 31
    ensures Mask(n) & 0x8000_0000 == 0x8000_0000
    decreases 31 - n
  {
    if n == 31 {
      assert Mask(6) == 0xffff_ffc0;
      assert Mask(11) == 0xffff_f800;
      assert Mask(16) == 0xffff_0000;
      assert Mask(21) == 0xffe0_0000;
      assert Mask(26) == 0xfc00_0000;
    } else {
      MaskNested(n);
      MaskTop(n + 1);
      assert Mask(n + 1) == Mask(n) << 1;
      NestedTop(Mask(n));
    }
  }

  predicate TopClear(x: bv32) {
    x < 0x8000_0000
  }

  lemma ApartTop(x: bv32, m: bv32)
    requires Apart(x, m) && m & 0x8000_0000 == 0x8000_0000
    ensures TopClear(x)
  {
  }

  lemma BitsTopClear(v: nat, n: nat)
    requires n <= 31
    ensures TopClear(Bits(v, n))
  {
    hide Bits, Mask, Apart, TopClear;
    BitsApart(v, n);
    MaskTop(n);
    ApartTop(Bits(v, n), Mask(n));
  }

  lemma AppendInjective(x: bv32, a: bool, y: bv32, b: bool)
    requires TopClear(x) && TopClear(y) && Append(x, a) == Append(y, b)
    ensures x == y && a == b
  {
  }

  function Pow2(n: nat): nat {
    if n == 0 then 1 else 2 * Pow2(n - 1)
  }

  lemma {:induction false} BitsInjective(v: nat, w: nat, n: nat)
    requires n <= 32 && v < Pow2(n) && w < Pow2(n) && Bits(v, n) == Bits(w, n)
    ensures v == w
  {
    hide Append, TopClear;
    if n > 0 {
      BitsTopClear(v / 2, n - 1);
      BitsTopClear(w / 2, n - 1);
      AppendInjective(Bits(v / 2, n - 1), v % 2 == 1, Bits(w / 2, n - 1), w % 2 == 1);
      BitsInjective(v / 2, w / 2, n - 1);
    }
  }

  predicate IsSample(value: int) {
    -0x8000_0000 <= value < 0x8000_0000
  }

  /** The two's complement word of a 32-bit integer. */
  function Word(value: int): bv32
    requires IsSample(value)
  {
    Bits(if value < 0 then value + 0x1_0000_0000 else value, 32)
  }

  lemma WordInjective(a: int, b: int)
    requires IsSample(a) && IsSample(b) && Word(a) == Word(b)
    ensures a == b
  {
    hide Bits;
    assert Pow2(8) == 0x100;
    assert Pow2(16) == 0x1_0000;
    assert Pow2(24) == 0x100_0000;
    assert Pow2(32) == 0x1_0000_0000;
    BitsInjective(if a < 0 then a + 0x1_0000_0000 else a, if b < 0 then b + 0x1_0000_0000 else b, 32);
  }

  // ---- The bits of a word ----------------------------------------------------------------

  function Half(x: bv32): bv32 {
    x >> 1
  }

  predicate Odd(x: bv32) {
    x & 1 == 1
  }

  /** Bit `i` of a word, the lowest first. */
  predicate BitAt(x: bv32, i: nat) {
    if i == 0 then Odd(x) else BitAt(Half(x), i - 1)
  }

  lemma AppendShifts(x: bv32, bit: bool)
    requires TopClear(x)
    ensures Half(Append(x, bit)) == x && (Odd(Append(x, bit)) <==> bit)
  {
  }

  lemma DivIs(x: nat, p: nat, q: nat, r: nat)
    requires r < p && x == q * p + r
    ensures x / p == q
  {
    var d := x / p - q;
    assert d * p == r - x % p;
    assert d > 0 ==> d * p >= p;
    assert d < 0 ==> d * p + p <= 0;
  }

  lemma HalfOf(v: nat, p: nat)
    requires p > 0
    ensures v / (2 * p) == v / 2 / p
  {
    var h := v / 2;
    var q, r := h / p, h % p;
    assert h == q * p + r && v == 2 * h + v % 2;
    assert v == q * (2 * p) + (2 * r + v % 2) by { assert 2 * (q * p) == q * (2 * p); }
    DivIs(v, 2 * p, q, 2 * r + v % 2);
  }

  lemma {:induction false} BitsAre(v: nat, n: nat, i: nat)
    requires i < n <= 32
    ensures Pow2(i) > 0 && (BitAt(Bits(v, n), i) <==> v / Pow2(i) % 2 == 1)
  {
    hide Append, TopClear, Half, Odd;
    BitsTopClear(v / 2, n - 1);
    AppendShifts(Bits(v / 2, n - 1), v % 2 == 1);
    if i > 0 {
      BitsAre(v / 2, n - 1, i - 1);
      HalfOf(v, Pow2(i - 1));
    }
  }

  /** The word of a number holds its bits modulo two to the 32. */
  lemma WordBits(value: int, i: nat)
    requires IsSample(value) && i < 32
    ensures Pow2(i) > 0 && (BitAt(Word(value), i) <==> value % 0x1_0000_0000 / Pow2(i) % 2 == 1)
  {
    hide Bits, BitAt, Pow2;
    var v := if value < 0 then value + 0x1_0000_0000 else value;
    assert value % 0x1_0000_0000 == v;
    BitsAre(v, 32, i);
  }
}
