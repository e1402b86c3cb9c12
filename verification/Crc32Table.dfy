// CRC-32 with the reflected polynomial 0xEDB88320 (RFC 1952, section 8): the lookup table against division
// bit by bit. The table is written as one function for each of its 32 rows of eight entries.
module Crc32Table {

  const POLYNOMIAL: bv32 := 0xEDB88320

  // One bit of the reflected division.
  function Bit(x: bv32): bv32 {
    if x & 1 == 1 then (x >> 1) ^ POLYNOMIAL else x >> 1
  }

  function Byte(x: bv32): bv32 {
    Bit(Bit(Bit(Bit(Bit(Bit(Bit(Bit(x))))))))
  }

  function Row00(k: bv32): bv32 {
    if k == 0 then 0x00000000 else if k == 1 then 0x77073096 else if k == 2 then 0xEE0E612C
    else if k == 3 then 0x990951BA else if k == 4 then 0x076DC419 else if k == 5 then 0x706AF48F
    else if k == 6 then 0xE963A535 else 0x9E6495A3
  }

  function Row01(k: bv32): bv32 {
    if k == 0 then 0x0EDB8832 else if k == 1 then 0x79DCB8A4 else if k == 2 then 0xE0D5E91E
    else if k == 3 then 0x97D2D988 else if k == 4 then 0x09B64C2B else if k == 5 then 0x7EB17CBD
    else if k == 6 then 0xE7B82D07 else 0x90BF1D91
  }

  function Row02(k: bv32): bv32 {
    if k == 0 then 0x1DB71064 else if k == 1 then 0x6AB020F2 else if k == 2 then 0xF3B97148
    else if k == 3 then 0x84BE41DE else if k == 4 then 0x1ADAD47D else if k == 5 then 0x6DDDE4EB
    else if k == 6 then 0xF4D4B551 else 0x83D385C7
  }

  function Row03(k: bv32): bv32 {
    if k == 0 then 0x136C9856 else if k == 1 then 0x646BA8C0 else if k == 2 then 0xFD62F97A
    else if k == 3 then 0x8A65C9EC else if k == 4 then 0x14015C4F else if k == 5 then 0x63066CD9
    else if k == 6 then 0xFA0F3D63 else 0x8D080DF5
  }

  function Row04(k: bv32): bv32 {
    if k == 0 then 0x3B6E20C8 else if k == 1 then 0x4C69105E else if k == 2 then 0xD56041E4
    else if k == 3 then 0xA2677172 else if k == 4 then 0x3C03E4D1 else if k == 5 then 0x4B04D447
    else if k == 6 then 0xD20D85FD else 0xA50AB56B
  }

  function Row05(k: bv32): bv32 {
    if k == 0 then 0x35B5A8FA else if k == 1 then 0x42B2986C else if k == 2 then 0xDBBBC9D6
    else if k == 3 then 0xACBCF940 else if k == 4 then 0x32D86CE3 else if k == 5 then 0x45DF5C75
    else if k == 6 then 0xDCD60DCF else 0xABD13D59
  }

  function Row06(k: bv32): bv32 {
    if k == 0 then 0x26D930AC else if k == 1 then 0x51DE003A else if k == 2 then 0xC8D75180
    else if k == 3 then 0xBFD06116 else if k == 4 then 0x21B4F4B5 else if k == 5 then 0x56B3C423
    else if k == 6 then 0xCFBA9599 else 0xB8BDA50F
  }

  function Row07(k: bv32): bv32 {
    if k == 0 then 0x2802B89E else if k == 1 then 0x5F058808 else if k == 2 then 0xC60CD9B2
    else if k == 3 then 0xB10BE924 else if k == 4 then 0x2F6F7C87 else if k == 5 then 0x58684C11
    else if k == 6 then 0xC1611DAB else 0xB6662D3D
  }

  function Row08(k: bv32): bv32 {
    if k == 0 then 0x76DC4190 else if k == 1 then 0x01DB7106 else if k == 2 then 0x98D220BC
    else if k == 3 then 0xEFD5102A else if k == 4 then 0x71B18589 else if k == 5 then 0x06B6B51F
    else if k == 6 then 0x9FBFE4A5 else 0xE8B8D433
  }

  function Row09(k: bv32): bv32 {
    if k == 0 then 0x7807C9A2 else if k == 1 then 0x0F00F934 else if k == 2 then 0x9609A88E
    else if k == 3 then 0xE10E9818 else if k == 4 then 0x7F6A0DBB else if k == 5 then 0x086D3D2D
    else if k == 6 then 0x91646C97 else 0xE6635C01
  }

  function Row10(k: bv32): bv32 {
    if k == 0 then 0x6B6B51F4 else if k == 1 then 0x1C6C6162 else if k == 2 then 0x856530D8
    else if k == 3 then 0xF262004E else if k == 4 then 0x6C0695ED else if k == 5 then 0x1B01A57B
    else if k == 6 then 0x8208F4C1 else 0xF50FC457
  }

  function Row11(k: bv32): bv32 {
    if k == 0 then 0x65B0D9C6 else if k == 1 then 0x12B7E950 else if k == 2 then 0x8BBEB8EA
    else if k == 3 then 0xFCB9887C else if k == 4 then 0x62DD1DDF else if k == 5 then 0x15DA2D49
    else if k == 6 then 0x8CD37CF3 else 0xFBD44C65
  }

  function Row12(k: bv32): bv32 {
    if k == 0 then 0x4DB26158 else if k == 1 then 0x3AB551CE else if k == 2 then 0xA3BC0074
    else if k == 3 then 0xD4BB30E2 else if k == 4 then 0x4ADFA541 else if k == 5 then 0x3DD895D7
    else if k == 6 then 0xA4D1C46D else 0xD3D6F4FB
  }

  function Row13(k: bv32): bv32 {
    if k == 0 then 0x4369E96A else if k == 1 then 0x346ED9FC else if k == 2 then 0xAD678846
    else if k == 3 then 0xDA60B8D0 else if k == 4 then 0x44042D73 else if k == 5 then 0x33031DE5
    else if k == 6 then 0xAA0A4C5F else 0xDD0D7CC9
  }

  function Row14(k: bv32): bv32 {
    if k == 0 then 0x5005713C else if k == 1 then 0x270241AA else if k == 2 then 0xBE0B1010
    else if k == 3 then 0xC90C2086 else if k == 4 then 0x5768B525 else if k == 5 then 0x206F85B3
    else if k == 6 then 0xB966D409 else 0xCE61E49F
  }

  function Row15(k: bv32): bv32 {
    if k == 0 then 0x5EDEF90E else if k == 1 then 0x29D9C998 else if k == 2 then 0xB0D09822
    else if k == 3 then 0xC7D7A8B4 else if k == 4 then 0x59B33D17 else if k == 5 then 0x2EB40D81
    else if k == 6 then 0xB7BD5C3B else 0xC0BA6CAD
  }

  function Row16(k: bv32): bv32 {
    if k == 0 then 0xEDB88320 else if k == 1 then 0x9ABFB3B6 else if k == 2 then 0x03B6E20C
    else if k == 3 then 0x74B1D29A else if k == 4 then 0xEAD54739 else if k == 5 then 0x9DD277AF
    else if k == 6 then 0x04DB2615 else 0x73DC1683
  }

  function Row17(k: bv32): bv32 {
    if k == 0 then 0xE3630B12 else if k == 1 then 0x94643B84 else if k == 2 then 0x0D6D6A3E
    else if k == 3 then 0x7A6A5AA8 else if k == 4 then 0xE40ECF0B else if k == 5 then 0x9309FF9D
    else if k == 6 then 0x0A00AE27 else 0x7D079EB1
  }

  function Row18(k: bv32): bv32 {
    if k == 0 then 0xF00F9344 else if k == 1 then 0x8708A3D2 else if k == 2 then 0x1E01F268
    else if k == 3 then 0x6906C2FE else if k == 4 then 0xF762575D else if k == 5 then 0x806567CB
    else if k == 6 then 0x196C3671 else 0x6E6B06E7
  }

  function Row19(k: bv32): bv32 {
    if k == 0 then 0xFED41B76 else if k == 1 then 0x89D32BE0 else if k == 2 then 0x10DA7A5A
    else if k == 3 then 0x67DD4ACC else if k == 4 then 0xF9B9DF6F else if k == 5 then 0x8EBEEFF9
    else if k == 6 then 0x17B7BE43 else 0x60B08ED5
  }

  function Row20(k: bv32): bv32 {
    if k == 0 then 0xD6D6A3E8 else if k == 1 then 0xA1D1937E else if k == 2 then 0x38D8C2C4
    else if k == 3 then 0x4FDFF252 else if k == 4 then 0xD1BB67F1 else if k == 5 then 0xA6BC5767
    else if k == 6 then 0x3FB506DD else 0x48B2364B
  }

  function Row21(k: bv32): bv32 {
    if k == 0 then 0xD80D2BDA else if k == 1 then 0xAF0A1B4C else if k == 2 then 0x36034AF6
    else if k == 3 then 0x41047A60 else if k == 4 then 0xDF60EFC3 else if k == 5 then 0xA867DF55
    else if k == 6 then 0x316E8EEF else 0x4669BE79
  }

  function Row22(k: bv32): bv32 {
    if k == 0 then 0xCB61B38C else if k == 1 then 0xBC66831A else if k == 2 then 0x256FD2A0
    else if k == 3 then 0x5268E236 else if k == 4 then 0xCC0C7795 else if k == 5 then 0xBB0B4703
    else if k == 6 then 0x220216B9 else 0x5505262F
  }

  function Row23(k: bv32): bv32 {
    if k == 0 then 0xC5BA3BBE else if k == 1 then 0xB2BD0B28 else if k == 2 then 0x2BB45A92
    else if k == 3 then 0x5CB36A04 else if k == 4 then 0xC2D7FFA7 else if k == 5 then 0xB5D0CF31
    else if k == 6 then 0x2CD99E8B else 0x5BDEAE1D
  }

  function Row24(k: bv32): bv32 {
    if k == 0 then 0x9B64C2B0 else if k == 1 then 0xEC63F226 else if k == 2 then 0x756AA39C
    else if k == 3 then 0x026D930A else if k == 4 then 0x9C0906A9 else if k == 5 then 0xEB0E363F
    else if k == 6 then 0x72076785 else 0x05005713
  }

  function Row25(k: bv32): bv32 {
    if k == 0 then 0x95BF4A82 else if k == 1 then 0xE2B87A14 else if k == 2 then 0x7BB12BAE
    else if k == 3 then 0x0CB61B38 else if k == 4 then 0x92D28E9B else if k == 5 then 0xE5D5BE0D
    else if k == 6 then 0x7CDCEFB7 else 0x0BDBDF21
  }

  function Row26(k: bv32): bv32 {
    if k == 0 then 0x86D3D2D4 else if k == 1 then 0xF1D4E242 else if k == 2 then 0x68DDB3F8
    else if k == 3 then 0x1FDA836E else if k == 4 then 0x81BE16CD else if k == 5 then 0xF6B9265B
    else if k == 6 then 0x6FB077E1 else 0x18B74777
  }

  function Row27(k: bv32): bv32 {
    if k == 0 then 0x88085AE6 else if k == 1 then 0xFF0F6A70 else if k == 2 then 0x66063BCA
    else if k == 3 then 0x11010B5C else if k == 4 then 0x8F659EFF else if k == 5 then 0xF862AE69
    else if k == 6 then 0x616BFFD3 else 0x166CCF45
  }

  function Row28(k: bv32): bv32 {
    if k == 0 then 0xA00AE278 else if k == 1 then 0xD70DD2EE else if k == 2 then 0x4E048354
    else if k == 3 then 0x3903B3C2 else if k == 4 then 0xA7672661 else if k == 5 then 0xD06016F7
    else if k == 6 then 0x4969474D else 0x3E6E77DB
  }

  function Row29(k: bv32): bv32 {
    if k == 0 then 0xAED16A4A else if k == 1 then 0xD9D65ADC else if k == 2 then 0x40DF0B66
    else if k == 3 then 0x37D83BF0 else if k == 4 then 0xA9BCAE53 else if k == 5 then 0xDEBB9EC5
    else if k == 6 then 0x47B2CF7F else 0x30B5FFE9
  }

  function Row30(k: bv32): bv32 {
    if k == 0 then 0xBDBDF21C else if k == 1 then 0xCABAC28A else if k == 2 then 0x53B39330
    else if k == 3 then 0x24B4A3A6 else if k == 4 then 0xBAD03605 else if k == 5 then 0xCDD70693
    else if k == 6 then 0x54DE5729 else 0x23D967BF
  }

  function Row31(k: bv32): bv32 {
    if k == 0 then 0xB3667A2E else if k == 1 then 0xC4614AB8 else if k == 2 then 0x5D681B02
    else if k == 3 then 0x2A6F2B94 else if k == 4 then 0xB40BBE37 else if k == 5 then 0xC30C8EA1
    else if k == 6 then 0x5A05DF1B else 0x2D02EF8D
  }

  function TableRow(row: bv32, k: bv32): bv32 {
    if row == 0 then Row00(k) else if row == 1 then Row01(k)
    else if row == 2 then Row02(k) else if row == 3 then Row03(k)
    else if row == 4 then Row04(k) else if row == 5 then Row05(k)
    else if row == 6 then Row06(k) else if row == 7 then Row07(k)
    else if row == 8 then Row08(k) else if row == 9 then Row09(k)
    else if row == 10 then Row10(k) else if row == 11 then Row11(k)
    else if row == 12 then Row12(k) else if row == 13 then Row13(k)
    else if row == 14 then Row14(k) else if row == 15 then Row15(k)
    else if row == 16 then Row16(k) else if row == 17 then Row17(k)
    else if row == 18 then Row18(k) else if row == 19 then Row19(k)
    else if row == 20 then Row20(k) else if row == 21 then Row21(k)
    else if row == 22 then Row22(k) else if row == 23 then Row23(k)
    else if row == 24 then Row24(k) else if row == 25 then Row25(k)
    else if row == 26 then Row26(k) else if row == 27 then Row27(k)
    else if row == 28 then Row28(k) else if row == 29 then Row29(k)
    else if row == 30 then Row30(k) else Row31(k)
  }

  // CRC32_TABLE[i]
  function TableEntry(i: bv32): bv32 {
    TableRow(i >> 3, i & 7)
  }

  lemma Rows00To03(i: bv32)
    requires i < 256
    ensures i >> 3 == 0 ==> Row00(i & 7) == Byte(i)
    ensures i >> 3 == 1 ==> Row01(i & 7) == Byte(i)
    ensures i >> 3 == 2 ==> Row02(i & 7) == Byte(i)
    ensures i >> 3 == 3 ==> Row03(i & 7) == Byte(i)
  {
  }

  lemma Rows04To07(i: bv32)
    requires i < 256
    ensures i >> 3 == 4 ==> Row04(i & 7) == Byte(i)
    ensures i >> 3 == 5 ==> Row05(i & 7) == Byte(i)
    ensures i >> 3 == 6 ==> Row06(i & 7) == Byte(i)
    ensures i >> 3 == 7 ==> Row07(i & 7) == Byte(i)
  {
  }

  lemma Rows08To11(i: bv32)
    requires i < 256
    ensures i >> 3 == 8 ==> Row08(i & 7) == Byte(i)
    ensures i >> 3 == 9 ==> Row09(i & 7) == Byte(i)
    ensures i >> 3 == 10 ==> Row10(i & 7) == Byte(i)
    ensures i >> 3 == 11 ==> Row11(i & 7) == Byte(i)
  {
  }

  lemma Rows12To15(i: bv32)
    requires i < 256
    ensures i >> 3 == 12 ==> Row12(i & 7) == Byte(i)
    ensures i >> 3 == 13 ==> Row13(i & 7) == Byte(i)
    ensures i >> 3 == 14 ==> Row14(i & 7) == Byte(i)
    ensures i >> 3 == 15 ==> Row15(i & 7) == Byte(i)
  {
  }

  lemma Rows16To19(i: bv32)
    requires i < 256
    ensures i >> 3 == 16 ==> Row16(i & 7) == Byte(i)
    ensures i >> 3 == 17 ==> Row17(i & 7) == Byte(i)
    ensures i >> 3 == 18 ==> Row18(i & 7) == Byte(i)
    ensures i >> 3 == 19 ==> Row19(i & 7) == Byte(i)
  {
  }

  lemma Rows20To23(i: bv32)
    requires i < 256
    ensures i >> 3 == 20 ==> Row20(i & 7) == Byte(i)
    ensures i >> 3 == 21 ==> Row21(i & 7) == Byte(i)
    ensures i >> 3 == 22 ==> Row22(i & 7) == Byte(i)
    ensures i >> 3 == 23 ==> Row23(i & 7) == Byte(i)
  {
  }

  lemma Rows24To27(i: bv32)
    requires i < 256
    ensures i >> 3 == 24 ==> Row24(i & 7) == Byte(i)
    ensures i >> 3 == 25 ==> Row25(i & 7) == Byte(i)
    ensures i >> 3 == 26 ==> Row26(i & 7) == Byte(i)
    ensures i >> 3 == 27 ==> Row27(i & 7) == Byte(i)
  {
  }

  lemma Rows28To31(i: bv32)
    requires i < 256
    ensures i >> 3 == 28 ==> Row28(i & 7) == Byte(i)
    ensures i >> 3 == 29 ==> Row29(i & 7) == Byte(i)
    ensures i >> 3 == 30 ==> Row30(i & 7) == Byte(i)
    ensures i >> 3 == 31 ==> Row31(i & 7) == Byte(i)
  {
  }

  // The table holds the division of every byte.
  lemma TableIsDivision(i: bv32)
    requires i < 256
    ensures TableEntry(i) == Byte(i)
  {
    hide Byte, Row00, Row01, Row02, Row03, Row04, Row05, Row06, Row07, Row08, Row09, Row10, Row11, Row12, Row13, Row14;
    hide Row15, Row16, Row17, Row18, Row19, Row20, Row21, Row22, Row23, Row24, Row25, Row26, Row27, Row28, Row29;
    hide Row30, Row31;
    SmallRow(i);
    Rows00To03(i);
    Rows04To07(i);
    Rows08To11(i);
    Rows12To15(i);
    Rows16To19(i);
    Rows20To23(i);
    Rows24To27(i);
    Rows28To31(i);
  }

  lemma SmallRow(i: bv32)
    requires i < 256
    ensures i >> 3 < 32
  {
  }
}
