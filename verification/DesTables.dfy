/** The constant tables of the two DES engines, row by row as the sources lay them out. A row is picked by the
    high bits of the index and an entry by the low bits. */
module DesTables {

  /** Entry `j & 7` of a row of eight. */
  function Row8(j: bv8, a0: bv32, a1: bv32, a2: bv32, a3: bv32, a4: bv32, a5: bv32, a6: bv32, a7: bv32): bv32 {
    if j & 4 == 0 then
      if j & 2 == 0 then (if j & 1 == 0 then a0 else a1) else (if j & 1 == 0 then a2 else a3)
    else
      if j & 2 == 0 then (if j & 1 == 0 then a4 else a5) else (if j & 1 == 0 then a6 else a7)
  }

  /** Entry `j & 3` of a row of four. */
  function Row4(j: bv8, a0: bv32, a1: bv32, a2: bv32, a3: bv32): bv32 {
    if j & 2 == 0 then (if j & 1 == 0 then a0 else a1) else (if j & 1 == 0 then a2 else a3)
  }

  /** Entry `j & 15` of a row of sixteen. */
  function Row16(j: bv8,
                 a0: bv32, a1: bv32, a2: bv32, a3: bv32, a4: bv32, a5: bv32, a6: bv32, a7: bv32,
                 b0: bv32, b1: bv32, b2: bv32, b3: bv32, b4: bv32, b5: bv32, b6: bv32, b7: bv32): bv32 {
    if j & 8 == 0 then Row8(j, a0, a1, a2, a3, a4, a5, a6, a7) else Row8(j, b0, b1, b2, b3, b4, b5, b6, b7)
  }

  // ----- S-boxes of the bit-level engine (src/leo_standard_des_crypto.c:26-73)

  function Sbox1(j: bv8): bv32 {
    if j & 0x20 == 0 then
      if j & 0x10 == 0 then
        Row16(j, 14, 4, 13, 1, 2, 15, 11, 8, 3, 10, 6, 12, 5, 9, 0, 7)
      else
        Row16(j, 0, 15, 7, 4, 14, 2, 13, 1, 10, 6, 12, 11, 9, 5, 3, 8)
    else
      if j & 0x10 == 0 then
        Row16(j, 4, 1, 14, 8, 13, 6, 2, 11, 15, 12, 9, 7, 3, 10, 5, 0)
      else
        Row16(j, 15, 12, 8, 2, 4, 9, 1, 7, 5, 11, 3, 14, 10, 0, 6, 13)
  }

  function Sbox2(j: bv8): bv32 {
    if j & 0x20 == 0 then
      if j & 0x10 == 0 then
        Row16(j, 15, 1, 8, 14, 6, 11, 3, 4, 9, 7, 2, 13, 12, 0, 5, 10)
      else
        Row16(j, 3, 13, 4, 7, 15, 2, 8, 14, 12, 0, 1, 10, 6, 9, 11, 5)
    else
      if j & 0x10 == 0 then
        Row16(j, 0, 14, 7, 11, 10, 4, 13, 1, 5, 8, 12, 6, 9, 3, 2, 15)
      else
        Row16(j, 13, 8, 10, 1, 3, 15, 4, 2, 11, 6, 7, 12, 0, 5, 14, 9)
  }

  function Sbox3(j: bv8): bv32 {
    if j & 0x20 == 0 then
      if j & 0x10 == 0 then
        Row16(j, 10, 0, 9, 14, 6, 3, 15, 5, 1, 13, 12, 7, 11, 4, 2, 8)
      else
        Row16(j, 13, 7, 0, 9, 3, 4, 6, 10, 2, 8, 5, 14, 12, 11, 15, 1)
    else
      if j & 0x10 == 0 then
        Row16(j, 13, 6, 4, 9, 8, 15, 3, 0, 11, 1, 2, 12, 5, 10, 14, 7)
      else
        Row16(j, 1, 10, 13, 0, 6, 9, 8, 7, 4, 15, 14, 3, 11, 5, 2, 12)
  }

  function Sbox4(j: bv8): bv32 {
    if j & 0x20 == 0 then
      if j & 0x10 == 0 then
        Row16(j, 7, 13, 14, 3, 0, 6, 9, 10, 1, 2, 8, 5, 11, 12, 4, 15)
      else
        Row16(j, 13, 8, 11, 5, 6, 15, 0, 3, 4, 7, 2, 12, 1, 10, 14, 9)
    else
      if j & 0x10 == 0 then
        Row16(j, 10, 6, 9, 0, 12, 11, 7, 13, 15, 1, 3, 14, 5, 2, 8, 4)
      else
        Row16(j, 3, 15, 0, 6, 10, 1, 13, 8, 9, 4, 5, 11, 12, 7, 2, 14)
  }

  function Sbox5(j: bv8): bv32 {
    if j & 0x20 == 0 then
      if j & 0x10 == 0 then
        Row16(j, 2, 12, 4, 1, 7, 10, 11, 6, 8, 5, 3, 15, 13, 0, 14, 9)
      else
        Row16(j, 14, 11, 2, 12, 4, 7, 13, 1, 5, 0, 15, 10, 3, 9, 8, 6)
    else
      if j & 0x10 == 0 then
        Row16(j, 4, 2, 1, 11, 10, 13, 7, 8, 15, 9, 12, 5, 6, 3, 0, 14)
      else
        Row16(j, 11, 8, 12, 7, 1, 14, 2, 13, 6, 15, 0, 9, 10, 4, 5, 3)
  }

  function Sbox6(j: bv8): bv32 {
    if j & 0x20 == 0 then
      if j & 0x10 == 0 then
        Row16(j, 12, 1, 10, 15, 9, 2, 6, 8, 0, 13, 3, 4, 14, 7, 5, 11)
      else
        Row16(j, 10, 15, 4, 2, 7, 12, 9, 5, 6, 1, 13, 14, 0, 11, 3, 8)
    else
      if j & 0x10 == 0 then
        Row16(j, 9, 14, 15, 5, 2, 8, 12, 3, 7, 0, 4, 10, 1, 13, 11, 6)
      else
        Row16(j, 4, 3, 2, 12, 9, 5, 15, 10, 11, 14, 1, 7, 6, 0, 8, 13)
  }

  function Sbox7(j: bv8): bv32 {
    if j & 0x20 == 0 then
      if j & 0x10 == 0 then
        Row16(j, 4, 11, 2, 14, 15, 0, 8, 13, 3, 12, 9, 7, 5, 10, 6, 1)
      else
        Row16(j, 13, 0, 11, 7, 4, 9, 1, 10, 14, 3, 5, 12, 2, 15, 8, 6)
    else
      if j & 0x10 == 0 then
        Row16(j, 1, 4, 11, 13, 12, 3, 7, 14, 10, 15, 6, 8, 0, 5, 9, 2)
      else
        Row16(j, 6, 11, 13, 8, 1, 4, 10, 7, 9, 5, 0, 15, 14, 2, 3, 12)
  }

  function Sbox8(j: bv8): bv32 {
    if j & 0x20 == 0 then
      if j & 0x10 == 0 then
        Row16(j, 13, 2, 8, 4, 6, 15, 11, 1, 10, 9, 3, 14, 5, 0, 12, 7)
      else
        Row16(j, 1, 15, 13, 8, 10, 3, 7, 4, 12, 5, 6, 11, 0, 14, 9, 2)
    else
      if j & 0x10 == 0 then
        Row16(j, 7, 11, 4, 1, 9, 12, 14, 2, 0, 6, 10, 13, 15, 3, 5, 8)
      else
        Row16(j, 2, 1, 14, 7, 4, 10, 8, 13, 15, 12, 9, 0, 3, 5, 6, 11)
  }

  // ----- fused S-boxes of the table-driven engine (src/leo_des_crypto.c:227-372)

  function Psbox0(j: bv8): bv32 {
    if j & 0x20 == 0 then
      if j & 0x10 == 0 then
        if j & 0x08 == 0 then
          if j & 0x04 == 0 then
            Row4(j, 0x00808200, 0x00000000, 0x00008000, 0x00808202)
          else
            Row4(j, 0x00808002, 0x00008202, 0x00000002, 0x00008000)
        else
          if j & 0x04 == 0 then
            Row4(j, 0x00000200, 0x00808200, 0x00808202, 0x00000200)
          else
            Row4(j, 0x00800202, 0x00808002, 0x00800000, 0x00000002)
      else
        if j & 0x08 == 0 then
          if j & 0x04 == 0 then
            Row4(j, 0x00000202, 0x00800200, 0x00800200, 0x00008200)
          else
            Row4(j, 0x00008200, 0x00808000, 0x00808000, 0x00800202)
        else
          if j & 0x04 == 0 then
            Row4(j, 0x00008002, 0x00800002, 0x00800002, 0x00008002)
          else
            Row4(j, 0x00000000, 0x00000202, 0x00008202, 0x00800000)
    else
      if j & 0x10 == 0 then
        if j & 0x08 == 0 then
          if j & 0x04 == 0 then
            Row4(j, 0x00008000, 0x00808202, 0x00000002, 0x00808000)
          else
            Row4(j, 0x00808200, 0x00800000, 0x00800000, 0x00000200)
        else
          if j & 0x04 == 0 then
            Row4(j, 0x00808002, 0x00008000, 0x00008200, 0x00800002)
          else
            Row4(j, 0x00000200, 0x00000002, 0x00800202, 0x00008202)
      else
        if j & 0x08 == 0 then
          if j & 0x04 == 0 then
            Row4(j, 0x00808202, 0x00008002, 0x00808000, 0x00800202)
          else
            Row4(j, 0x00800002, 0x00000202, 0x00008202, 0x00808200)
        else
          if j & 0x04 == 0 then
            Row4(j, 0x00000202, 0x00800200, 0x00800200, 0x00000000)
          else
            Row4(j, 0x00008002, 0x00008200, 0x00000000, 0x00808002)
  }

  function Psbox1(j: bv8): bv32 {
    if j & 0x20 == 0 then
      if j & 0x10 == 0 then
        if j & 0x08 == 0 then
          if j & 0x04 == 0 then
            Row4(j, 0x40084010, 0x40004000, 0x00004000, 0x00084010)
          else
            Row4(j, 0x00080000, 0x00000010, 0x40080010, 0x40004010)
        else
          if j & 0x04 == 0 then
            Row4(j, 0x40000010, 0x40084010, 0x40084000, 0x40000000)
          else
            Row4(j, 0x40004000, 0x00080000, 0x00000010, 0x40080010)
      else
        if j & 0x08 == 0 then
          if j & 0x04 == 0 then
            Row4(j, 0x00084000, 0x00080010, 0x40004010, 0x00000000)
          else
            Row4(j, 0x40000000, 0x00004000, 0x00084010, 0x40080000)
        else
          if j & 0x04 == 0 then
            Row4(j, 0x00080010, 0x40000010, 0x00000000, 0x00084000)
          else
            Row4(j, 0x00004010, 0x40084000, 0x40080000, 0x00004010)
    else
      if j & 0x10 == 0 then
        if j & 0x08 == 0 then
          if j & 0x04 == 0 then
            Row4(j, 0x00000000, 0x00084010, 0x40080010, 0x00080000)
          else
            Row4(j, 0x40004010, 0x40080000, 0x40084000, 0x00004000)
        else
          if j & 0x04 == 0 then
            Row4(j, 0x40080000, 0x40004000, 0x00000010, 0x40084010)
          else
            Row4(j, 0x00084010, 0x00000010, 0x00004000, 0x40000000)
      else
        if j & 0x08 == 0 then
          if j & 0x04 == 0 then
            Row4(j, 0x00004010, 0x40084000, 0x00080000, 0x40000010)
          else
            Row4(j, 0x00080010, 0x40004010, 0x40000010, 0x00080010)
        else
          if j & 0x04 == 0 then
            Row4(j, 0x00084000, 0x00000000, 0x40004000, 0x00004010)
          else
            Row4(j, 0x40000000, 0x40080010, 0x40084010, 0x00084000)
  }

  function Psbox2(j: bv8): bv32 {
    if j & 0x20 == 0 then
      if j & 0x10 == 0 then
        if j & 0x08 == 0 then
          if j & 0x04 == 0 then
            Row4(j, 0x00000104, 0x04010100, 0x00000000, 0x04010004)
          else
            Row4(j, 0x04000100, 0x00000000, 0x00010104, 0x04000100)
        else
          if j & 0x04 == 0 then
            Row4(j, 0x00010004, 0x04000004, 0x04000004, 0x00010000)
          else
            Row4(j, 0x04010104, 0x00010004, 0x04010000, 0x00000104)
      else
        if j & 0x08 == 0 then
          if j & 0x04 == 0 then
            Row4(j, 0x04000000, 0x00000004, 0x04010100, 0x00000100)
          else
            Row4(j, 0x00010100, 0x04010000, 0x04010004, 0x00010104)
        else
          if j & 0x04 == 0 then
            Row4(j, 0x04000104, 0x00010100, 0x00010000, 0x04000104)
          else
            Row4(j, 0x00000004, 0x04010104, 0x00000100, 0x04000000)
    else
      if j & 0x10 == 0 then
        if j & 0x08 == 0 then
          if j & 0x04 == 0 then
            Row4(j, 0x04010100, 0x04000000, 0x00010004, 0x00000104)
          else
            Row4(j, 0x00010000, 0x04010100, 0x04000100, 0x00000000)
        else
          if j & 0x04 == 0 then
            Row4(j, 0x00000100, 0x00010004, 0x04010104, 0x04000100)
          else
            Row4(j, 0x04000004, 0x00000100, 0x00000000, 0x04010004)
      else
        if j & 0x08 == 0 then
          if j & 0x04 == 0 then
            Row4(j, 0x04000104, 0x00010000, 0x04000000, 0x04010104)
          else
            Row4(j, 0x00000004, 0x00010104, 0x00010100, 0x04000004)
        else
          if j & 0x04 == 0 then
            Row4(j, 0x04010000, 0x04000104, 0x00000104, 0x04010000)
          else
            Row4(j, 0x00010104, 0x00000004, 0x04010004, 0x00010100)
  }

  function Psbox3(j: bv8): bv32 {
    if j & 0x20 == 0 then
      if j & 0x10 == 0 then
        if j & 0x08 == 0 then
          if j & 0x04 == 0 then
            Row4(j, 0x80401000, 0x80001040, 0x80001040, 0x00000040)
          else
            Row4(j, 0x00401040, 0x80400040, 0x80400000, 0x80001000)
        else
          if j & 0x04 == 0 then
            Row4(j, 0x00000000, 0x00401000, 0x00401000, 0x80401040)
          else
            Row4(j, 0x80000040, 0x00000000, 0x00400040, 0x80400000)
      else
        if j & 0x08 == 0 then
          if j & 0x04 == 0 then
            Row4(j, 0x80000000, 0x00001000, 0x00400000, 0x80401000)
          else
            Row4(j, 0x00000040, 0x00400000, 0x80001000, 0x00001040)
        else
          if j & 0x04 == 0 then
            Row4(j, 0x80400040, 0x80000000, 0x00001040, 0x00400040)
          else
            Row4(j, 0x00001000, 0x00401040, 0x80401040, 0x80000040)
    else
      if j & 0x10 == 0 then
        if j & 0x08 == 0 then
          if j & 0x04 == 0 then
            Row4(j, 0x00400040, 0x80400000, 0x00401000, 0x80401040)
          else
            Row4(j, 0x80000040, 0x00000000, 0x00000000, 0x00401000)
        else
          if j & 0x04 == 0 then
            Row4(j, 0x00001040, 0x00400040, 0x80400040, 0x80000000)
          else
            Row4(j, 0x80401000, 0x80001040, 0x80001040, 0x00000040)
      else
        if j & 0x08 == 0 then
          if j & 0x04 == 0 then
            Row4(j, 0x80401040, 0x80000040, 0x80000000, 0x00001000)
          else
            Row4(j, 0x80400000, 0x80001000, 0x00401040, 0x80400040)
        else
          if j & 0x04 == 0 then
            Row4(j, 0x80001000, 0x00001040, 0x00400000, 0x80401000)
          else
            Row4(j, 0x00000040, 0x00400000, 0x00001000, 0x00401040)
  }

  function Psbox4(j: bv8): bv32 {
    if j & 0x20 == 0 then
      if j & 0x10 == 0 then
        if j & 0x08 == 0 then
          if j & 0x04 == 0 then
            Row4(j, 0x00000080, 0x01040080, 0x01040000, 0x21000080)
          else
            Row4(j, 0x00040000, 0x00000080, 0x20000000, 0x01040000)
        else
          if j & 0x04 == 0 then
            Row4(j, 0x20040080, 0x00040000, 0x01000080, 0x20040080)
          else
            Row4(j, 0x21000080, 0x21040000, 0x00040080, 0x20000000)
      else
        if j & 0x08 == 0 then
          if j & 0x04 == 0 then
            Row4(j, 0x01000000, 0x20040000, 0x20040000, 0x00000000)
          else
            Row4(j, 0x20000080, 0x21040080, 0x21040080, 0x01000080)
        else
          if j & 0x04 == 0 then
            Row4(j, 0x21040000, 0x20000080, 0x00000000, 0x21000000)
          else
            Row4(j, 0x01040080, 0x01000000, 0x21000000, 0x00040080)
    else
      if j & 0x10 == 0 then
        if j & 0x08 == 0 then
          if j & 0x04 == 0 then
            Row4(j, 0x00040000, 0x21000080, 0x00000080, 0x01000000)
          else
            Row4(j, 0x20000000, 0x01040000, 0x21000080, 0x20040080)
        else
          if j & 0x04 == 0 then
            Row4(j, 0x01000080, 0x20000000, 0x21040000, 0x01040080)
          else
            Row4(j, 0x20040080, 0x00000080, 0x01000000, 0x21040000)
      else
        if j & 0x08 == 0 then
          if j & 0x04 == 0 then
            Row4(j, 0x21040080, 0x00040080, 0x21000000, 0x21040080)
          else
            Row4(j, 0x01040000, 0x00000000, 0x20040000, 0x21000000)
        else
          if j & 0x04 == 0 then
            Row4(j, 0x00040080, 0x01000080, 0x20000080, 0x00040000)
          else
            Row4(j, 0x00000000, 0x20040000, 0x01040080, 0x20000080)
  }

  function Psbox5(j: bv8): bv32 {
    if j & 0x20 == 0 then
      if j & 0x10 == 0 then
        if j & 0x08 == 0 then
          if j & 0x04 == 0 then
            Row4(j, 0x10000008, 0x10200000, 0x00002000, 0x10202008)
          else
            Row4(j, 0x10200000, 0x00000008, 0x10202008, 0x00200000)
        else
          if j & 0x04 == 0 then
            Row4(j, 0x10002000, 0x00202008, 0x00200000, 0x10000008)
          else
            Row4(j, 0x00200008, 0x10002000, 0x10000000, 0x00002008)
      else
        if j & 0x08 == 0 then
          if j & 0x04 == 0 then
            Row4(j, 0x00000000, 0x00200008, 0x10002008, 0x00002000)
          else
            Row4(j, 0x00202000, 0x10002008, 0x00000008, 0x10200008)
        else
          if j & 0x04 == 0 then
            Row4(j, 0x10200008, 0x00000000, 0x00202008, 0x10202000)
          else
            Row4(j, 0x00002008, 0x00202000, 0x10202000, 0x10000000)
    else
      if j & 0x10 == 0 then
        if j & 0x08 == 0 then
          if j & 0x04 == 0 then
            Row4(j, 0x10002000, 0x00000008, 0x10200008, 0x00202000)
          else
            Row4(j, 0x10202008, 0x00200000, 0x00002008, 0x10000008)
        else
          if j & 0x04 == 0 then
            Row4(j, 0x00200000, 0x10002000, 0x10000000, 0x00002008)
          else
            Row4(j, 0x10000008, 0x10202008, 0x00202000, 0x10200000)
      else
        if j & 0x08 == 0 then
          if j & 0x04 == 0 then
            Row4(j, 0x00202008, 0x10202000, 0x00000000, 0x10200008)
          else
            Row4(j, 0x00000008, 0x00002000, 0x10200000, 0x00202008)
        else
          if j & 0x04 == 0 then
            Row4(j, 0x00002000, 0x00200008, 0x10002008, 0x00000000)
          else
            Row4(j, 0x10202000, 0x10000000, 0x00200008, 0x10002008)
  }

  function Psbox6(j: bv8): bv32 {
    if j & 0x20 == 0 then
      if j & 0x10 == 0 then
        if j & 0x08 == 0 then
          if j & 0x04 == 0 then
            Row4(j, 0x00100000, 0x02100001, 0x02000401, 0x00000000)
          else
            Row4(j, 0x00000400, 0x02000401, 0x00100401, 0x02100400)
        else
          if j & 0x04 == 0 then
            Row4(j, 0x02100401, 0x00100000, 0x00000000, 0x02000001)
          else
            Row4(j, 0x00000001, 0x02000000, 0x02100001, 0x00000401)
      else
        if j & 0x08 == 0 then
          if j & 0x04 == 0 then
            Row4(j, 0x02000400, 0x00100401, 0x00100001, 0x02000400)
          else
            Row4(j, 0x02000001, 0x02100000, 0x02100400, 0x00100001)
        else
          if j & 0x04 == 0 then
            Row4(j, 0x02100000, 0x00000400, 0x00000401, 0x02100401)
          else
            Row4(j, 0x00100400, 0x00000001, 0x02000000, 0x00100400)
    else
      if j & 0x10 == 0 then
        if j & 0x08 == 0 then
          if j & 0x04 == 0 then
            Row4(j, 0x02000000, 0x00100400, 0x00100000, 0x02000401)
          else
            Row4(j, 0x02000401, 0x02100001, 0x02100001, 0x00000001)
        else
          if j & 0x04 == 0 then
            Row4(j, 0x00100001, 0x02000000, 0x02000400, 0x00100000)
          else
            Row4(j, 0x02100400, 0x00000401, 0x00100401, 0x02100400)
      else
        if j & 0x08 == 0 then
          if j & 0x04 == 0 then
            Row4(j, 0x00000401, 0x02000001, 0x02100401, 0x02100000)
          else
            Row4(j, 0x00100400, 0x00000000, 0x00000001, 0x02100401)
        else
          if j & 0x04 == 0 then
            Row4(j, 0x00000000, 0x00100401, 0x02100000, 0x00000400)
          else
            Row4(j, 0x02000001, 0x02000400, 0x00000400, 0x00100001)
  }

  function Psbox7(j: bv8): bv32 {
    if j & 0x20 == 0 then
      if j & 0x10 == 0 then
        if j & 0x08 == 0 then
          if j & 0x04 == 0 then
            Row4(j, 0x08000820, 0x00000800, 0x00020000, 0x08020820)
          else
            Row4(j, 0x08000000, 0x08000820, 0x00000020, 0x08000000)
        else
          if j & 0x04 == 0 then
            Row4(j, 0x00020020, 0x08020000, 0x08020820, 0x00020800)
          else
            Row4(j, 0x08020800, 0x00020820, 0x00000800, 0x00000020)
      else
        if j & 0x08 == 0 then
          if j & 0x04 == 0 then
            Row4(j, 0x08020000, 0x08000020, 0x08000800, 0x00000820)
          else
            Row4(j, 0x00020800, 0x00020020, 0x08020020, 0x08020800)
        else
          if j & 0x04 == 0 then
            Row4(j, 0x00000820, 0x00000000, 0x00000000, 0x08020020)
          else
            Row4(j, 0x08000020, 0x08000800, 0x00020820, 0x00020000)
    else
      if j & 0x10 == 0 then
        if j & 0x08 == 0 then
          if j & 0x04 == 0 then
            Row4(j, 0x00020820, 0x00020000, 0x08020800, 0x00000800)
          else
            Row4(j, 0x00000020, 0x08020020, 0x00000800, 0x00020820)
        else
          if j & 0x04 == 0 then
            Row4(j, 0x08000800, 0x00000020, 0x08000020, 0x08020000)
          else
            Row4(j, 0x08020020, 0x08000000, 0x00020000, 0x08000820)
      else
        if j & 0x08 == 0 then
          if j & 0x04 == 0 then
            Row4(j, 0x00000000, 0x08020820, 0x00020020, 0x08000020)
          else
            Row4(j, 0x08020000, 0x08000800, 0x08000820, 0x00000000)
        else
          if j & 0x04 == 0 then
            Row4(j, 0x08020820, 0x00020800, 0x00020800, 0x00000820)
          else
            Row4(j, 0x00000820, 0x00020020, 0x08000000, 0x08020800)
  }

  // ----- initial and final transpose (src/leo_des_crypto.c:378-513)

  function IpL(j: bv8): bv32 {
    if j & 0x80 == 0 then
      if j & 0x40 == 0 then
        if j & 0x20 == 0 then
          if j & 0x10 == 0 then
            if j & 0x08 == 0 then
              Row8(j, 0x00000000, 0x00000080, 0x00000000, 0x00000080, 0x00008000, 0x00008080, 0x00008000, 0x00008080)
            else
              Row8(j, 0x00000000, 0x00000080, 0x00000000, 0x00000080, 0x00008000, 0x00008080, 0x00008000, 0x00008080)
          else
            if j & 0x08 == 0 then
              Row8(j, 0x00800000, 0x00800080, 0x00800000, 0x00800080, 0x00808000, 0x00808080, 0x00808000, 0x00808080)
            else
              Row8(j, 0x00800000, 0x00800080, 0x00800000, 0x00800080, 0x00808000, 0x00808080, 0x00808000, 0x00808080)
        else
          if j & 0x10 == 0 then
            if j & 0x08 == 0 then
              Row8(j, 0x00000000, 0x00000080, 0x00000000, 0x00000080, 0x00008000, 0x00008080, 0x00008000, 0x00008080)
            else
              Row8(j, 0x00000000, 0x00000080, 0x00000000, 0x00000080, 0x00008000, 0x00008080, 0x00008000, 0x00008080)
          else
            if j & 0x08 == 0 then
              Row8(j, 0x00800000, 0x00800080, 0x00800000, 0x00800080, 0x00808000, 0x00808080, 0x00808000, 0x00808080)
            else
              Row8(j, 0x00800000, 0x00800080, 0x00800000, 0x00800080, 0x00808000, 0x00808080, 0x00808000, 0x00808080)
      else
        if j & 0x20 == 0 then
          if j & 0x10 == 0 then
            if j & 0x08 == 0 then
              Row8(j, 0x80000000, 0x80000080, 0x80000000, 0x80000080, 0x80008000, 0x80008080, 0x80008000, 0x80008080)
            else
              Row8(j, 0x80000000, 0x80000080, 0x80000000, 0x80000080, 0x80008000, 0x80008080, 0x80008000, 0x80008080)
          else
            if j & 0x08 == 0 then
              Row8(j, 0x80800000, 0x80800080, 0x80800000, 0x80800080, 0x80808000, 0x80808080, 0x80808000, 0x80808080)
            else
              Row8(j, 0x80800000, 0x80800080, 0x80800000, 0x80800080, 0x80808000, 0x80808080, 0x80808000, 0x80808080)
        else
          if j & 0x10 == 0 then
            if j & 0x08 == 0 then
              Row8(j, 0x80000000, 0x80000080, 0x80000000, 0x80000080, 0x80008000, 0x80008080, 0x80008000, 0x80008080)
            else
              Row8(j, 0x80000000, 0x80000080, 0x80000000, 0x80000080, 0x80008000, 0x80008080, 0x80008000, 0x80008080)
          else
            if j & 0x08 == 0 then
              Row8(j, 0x80800000, 0x80800080, 0x80800000, 0x80800080, 0x80808000, 0x80808080, 0x80808000, 0x80808080)
            else
              Row8(j, 0x80800000, 0x80800080, 0x80800000, 0x80800080, 0x80808000, 0x80808080, 0x80808000, 0x80808080)
    else
      if j & 0x40 == 0 then
        if j & 0x20 == 0 then
          if j & 0x10 == 0 then
            if j & 0x08 == 0 then
              Row8(j, 0x00000000, 0x00000080, 0x00000000, 0x00000080, 0x00008000, 0x00008080, 0x00008000, 0x00008080)
            else
              Row8(j, 0x00000000, 0x00000080, 0x00000000, 0x00000080, 0x00008000, 0x00008080, 0x00008000, 0x00008080)
          else
            if j & 0x08 == 0 then
              Row8(j, 0x00800000, 0x00800080, 0x00800000, 0x00800080, 0x00808000, 0x00808080, 0x00808000, 0x00808080)
            else
              Row8(j, 0x00800000, 0x00800080, 0x00800000, 0x00800080, 0x00808000, 0x00808080, 0x00808000, 0x00808080)
        else
          if j & 0x10 == 0 then
            if j & 0x08 == 0 then
              Row8(j, 0x00000000, 0x00000080, 0x00000000, 0x00000080, 0x00008000, 0x00008080, 0x00008000, 0x00008080)
            else
              Row8(j, 0x00000000, 0x00000080, 0x00000000, 0x00000080, 0x00008000, 0x00008080, 0x00008000, 0x00008080)
          else
            if j & 0x08 == 0 then
              Row8(j, 0x00800000, 0x00800080, 0x00800000, 0x00800080, 0x00808000, 0x00808080, 0x00808000, 0x00808080)
            else
              Row8(j, 0x00800000, 0x00800080, 0x00800000, 0x00800080, 0x00808000, 0x00808080, 0x00808000, 0x00808080)
      else
        if j & 0x20 == 0 then
          if j & 0x10 == 0 then
            if j & 0x08 == 0 then
              Row8(j, 0x80000000, 0x80000080, 0x80000000, 0x80000080, 0x80008000, 0x80008080, 0x80008000, 0x80008080)
            else
              Row8(j, 0x80000000, 0x80000080, 0x80000000, 0x80000080, 0x80008000, 0x80008080, 0x80008000, 0x80008080)
          else
            if j & 0x08 == 0 then
              Row8(j, 0x80800000, 0x80800080, 0x80800000, 0x80800080, 0x80808000, 0x80808080, 0x80808000, 0x80808080)
            else
              Row8(j, 0x80800000, 0x80800080, 0x80800000, 0x80800080, 0x80808000, 0x80808080, 0x80808000, 0x80808080)
        else
          if j & 0x10 == 0 then
            if j & 0x08 == 0 then
              Row8(j, 0x80000000, 0x80000080, 0x80000000, 0x80000080, 0x80008000, 0x80008080, 0x80008000, 0x80008080)
            else
              Row8(j, 0x80000000, 0x80000080, 0x80000000, 0x80000080, 0x80008000, 0x80008080, 0x80008000, 0x80008080)
          else
            if j & 0x08 == 0 then
              Row8(j, 0x80800000, 0x80800080, 0x80800000, 0x80800080, 0x80808000, 0x80808080, 0x80808000, 0x80808080)
            else
              Row8(j, 0x80800000, 0x80800080, 0x80800000, 0x80800080, 0x80808000, 0x80808080, 0x80808000, 0x80808080)
  }

  function IpR(j: bv8): bv32 {
    if j & 0x80 == 0 then
      if j & 0x40 == 0 then
        if j & 0x20 == 0 then
          if j & 0x10 == 0 then
            if j & 0x08 == 0 then
              Row8(j, 0x00000000, 0x00000000, 0x00000080, 0x00000080, 0x00000000, 0x00000000, 0x00000080, 0x00000080)
            else
              Row8(j, 0x00008000, 0x00008000, 0x00008080, 0x00008080, 0x00008000, 0x00008000, 0x00008080, 0x00008080)
          else
            if j & 0x08 == 0 then
              Row8(j, 0x00000000, 0x00000000, 0x00000080, 0x00000080, 0x00000000, 0x00000000, 0x00000080, 0x00000080)
            else
              Row8(j, 0x00008000, 0x00008000, 0x00008080, 0x00008080, 0x00008000, 0x00008000, 0x00008080, 0x00008080)
        else
          if j & 0x10 == 0 then
            if j & 0x08 == 0 then
              Row8(j, 0x00800000, 0x00800000, 0x00800080, 0x00800080, 0x00800000, 0x00800000, 0x00800080, 0x00800080)
            else
              Row8(j, 0x00808000, 0x00808000, 0x00808080, 0x00808080, 0x00808000, 0x00808000, 0x00808080, 0x00808080)
          else
            if j & 0x08 == 0 then
              Row8(j, 0x00800000, 0x00800000, 0x00800080, 0x00800080, 0x00800000, 0x00800000, 0x00800080, 0x00800080)
            else
              Row8(j, 0x00808000, 0x00808000, 0x00808080, 0x00808080, 0x00808000, 0x00808000, 0x00808080, 0x00808080)
      else
        if j & 0x20 == 0 then
          if j & 0x10 == 0 then
            if j & 0x08 == 0 then
              Row8(j, 0x00000000, 0x00000000, 0x00000080, 0x00000080, 0x00000000, 0x00000000, 0x00000080, 0x00000080)
            else
              Row8(j, 0x00008000, 0x00008000, 0x00008080, 0x00008080, 0x00008000, 0x00008000, 0x00008080, 0x00008080)
          else
            if j & 0x08 == 0 then
              Row8(j, 0x00000000, 0x00000000, 0x00000080, 0x00000080, 0x00000000, 0x00000000, 0x00000080, 0x00000080)
            else
              Row8(j, 0x00008000, 0x00008000, 0x00008080, 0x00008080, 0x00008000, 0x00008000, 0x00008080, 0x00008080)
        else
          if j & 0x10 == 0 then
            if j & 0x08 == 0 then
              Row8(j, 0x00800000, 0x00800000, 0x00800080, 0x00800080, 0x00800000, 0x00800000, 0x00800080, 0x00800080)
            else
              Row8(j, 0x00808000, 0x00808000, 0x00808080, 0x00808080, 0x00808000, 0x00808000, 0x00808080, 0x00808080)
          else
            if j & 0x08 == 0 then
              Row8(j, 0x00800000, 0x00800000, 0x00800080, 0x00800080, 0x00800000, 0x00800000, 0x00800080, 0x00800080)
            else
              Row8(j, 0x00808000, 0x00808000, 0x00808080, 0x00808080, 0x00808000, 0x00808000, 0x00808080, 0x00808080)
    else
      if j & 0x40 == 0 then
        if j & 0x20 == 0 then
          if j & 0x10 == 0 then
            if j & 0x08 == 0 then
              Row8(j, 0x80000000, 0x80000000, 0x80000080, 0x80000080, 0x80000000, 0x80000000, 0x80000080, 0x80000080)
            else
              Row8(j, 0x80008000, 0x80008000, 0x80008080, 0x80008080, 0x80008000, 0x80008000, 0x80008080, 0x80008080)
          else
            if j & 0x08 == 0 then
              Row8(j, 0x80000000, 0x80000000, 0x80000080, 0x80000080, 0x80000000, 0x80000000, 0x80000080, 0x80000080)
            else
              Row8(j, 0x80008000, 0x80008000, 0x80008080, 0x80008080, 0x80008000, 0x80008000, 0x80008080, 0x80008080)
        else
          if j & 0x10 == 0 then
            if j & 0x08 == 0 then
              Row8(j, 0x80800000, 0x80800000, 0x80800080, 0x80800080, 0x80800000, 0x80800000, 0x80800080, 0x80800080)
            else
              Row8(j, 0x80808000, 0x80808000, 0x80808080, 0x80808080, 0x80808000, 0x80808000, 0x80808080, 0x80808080)
          else
            if j & 0x08 == 0 then
              Row8(j, 0x80800000, 0x80800000, 0x80800080, 0x80800080, 0x80800000, 0x80800000, 0x80800080, 0x80800080)
            else
              Row8(j, 0x80808000, 0x80808000, 0x80808080, 0x80808080, 0x80808000, 0x80808000, 0x80808080, 0x80808080)
      else
        if j & 0x20 == 0 then
          if j & 0x10 == 0 then
            if j & 0x08 == 0 then
              Row8(j, 0x80000000, 0x80000000, 0x80000080, 0x80000080, 0x80000000, 0x80000000, 0x80000080, 0x80000080)
            else
              Row8(j, 0x80008000, 0x80008000, 0x80008080, 0x80008080, 0x80008000, 0x80008000, 0x80008080, 0x80008080)
          else
            if j & 0x08 == 0 then
              Row8(j, 0x80000000, 0x80000000, 0x80000080, 0x80000080, 0x80000000, 0x80000000, 0x80000080, 0x80000080)
            else
              Row8(j, 0x80008000, 0x80008000, 0x80008080, 0x80008080, 0x80008000, 0x80008000, 0x80008080, 0x80008080)
        else
          if j & 0x10 == 0 then
            if j & 0x08 == 0 then
              Row8(j, 0x80800000, 0x80800000, 0x80800080, 0x80800080, 0x80800000, 0x80800000, 0x80800080, 0x80800080)
            else
              Row8(j, 0x80808000, 0x80808000, 0x80808080, 0x80808080, 0x80808000, 0x80808000, 0x80808080, 0x80808080)
          else
            if j & 0x08 == 0 then
              Row8(j, 0x80800000, 0x80800000, 0x80800080, 0x80800080, 0x80800000, 0x80800000, 0x80800080, 0x80800080)
            else
              Row8(j, 0x80808000, 0x80808000, 0x80808080, 0x80808080, 0x80808000, 0x80808000, 0x80808080, 0x80808080)
  }

  function IpInvL(j: bv8): bv32 {
    if j & 0x80 == 0 then
      if j & 0x40 == 0 then
        if j & 0x20 == 0 then
          if j & 0x10 == 0 then
            if j & 0x08 == 0 then
              Row8(j, 0x00000000, 0x80000000, 0x00800000, 0x80800000, 0x00008000, 0x80008000, 0x00808000, 0x80808000)
            else
              Row8(j, 0x00000080, 0x80000080, 0x00800080, 0x80800080, 0x00008080, 0x80008080, 0x00808080, 0x80808080)
          else
            if j & 0x08 == 0 then
              Row8(j, 0x00000000, 0x80000000, 0x00800000, 0x80800000, 0x00008000, 0x80008000, 0x00808000, 0x80808000)
            else
              Row8(j, 0x00000080, 0x80000080, 0x00800080, 0x80800080, 0x00008080, 0x80008080, 0x00808080, 0x80808080)
        else
          if j & 0x10 == 0 then
            if j & 0x08 == 0 then
              Row8(j, 0x00000000, 0x80000000, 0x00800000, 0x80800000, 0x00008000, 0x80008000, 0x00808000, 0x80808000)
            else
              Row8(j, 0x00000080, 0x80000080, 0x00800080, 0x80800080, 0x00008080, 0x80008080, 0x00808080, 0x80808080)
          else
            if j & 0x08 == 0 then
              Row8(j, 0x00000000, 0x80000000, 0x00800000, 0x80800000, 0x00008000, 0x80008000, 0x00808000, 0x80808000)
            else
              Row8(j, 0x00000080, 0x80000080, 0x00800080, 0x80800080, 0x00008080, 0x80008080, 0x00808080, 0x80808080)
      else
        if j & 0x20 == 0 then
          if j & 0x10 == 0 then
            if j & 0x08 == 0 then
              Row8(j, 0x00000000, 0x80000000, 0x00800000, 0x80800000, 0x00008000, 0x80008000, 0x00808000, 0x80808000)
            else
              Row8(j, 0x00000080, 0x80000080, 0x00800080, 0x80800080, 0x00008080, 0x80008080, 0x00808080, 0x80808080)
          else
            if j & 0x08 == 0 then
              Row8(j, 0x00000000, 0x80000000, 0x00800000, 0x80800000, 0x00008000, 0x80008000, 0x00808000, 0x80808000)
            else
              Row8(j, 0x00000080, 0x80000080, 0x00800080, 0x80800080, 0x00008080, 0x80008080, 0x00808080, 0x80808080)
        else
          if j & 0x10 == 0 then
            if j & 0x08 == 0 then
              Row8(j, 0x00000000, 0x80000000, 0x00800000, 0x80800000, 0x00008000, 0x80008000, 0x00808000, 0x80808000)
            else
              Row8(j, 0x00000080, 0x80000080, 0x00800080, 0x80800080, 0x00008080, 0x80008080, 0x00808080, 0x80808080)
          else
            if j & 0x08 == 0 then
              Row8(j, 0x00000000, 0x80000000, 0x00800000, 0x80800000, 0x00008000, 0x80008000, 0x00808000, 0x80808000)
            else
              Row8(j, 0x00000080, 0x80000080, 0x00800080, 0x80800080, 0x00008080, 0x80008080, 0x00808080, 0x80808080)
    else
      if j & 0x40 == 0 then
        if j & 0x20 == 0 then
          if j & 0x10 == 0 then
            if j & 0x08 == 0 then
              Row8(j, 0x00000000, 0x80000000, 0x00800000, 0x80800000, 0x00008000, 0x80008000, 0x00808000, 0x80808000)
            else
              Row8(j, 0x00000080, 0x80000080, 0x00800080, 0x80800080, 0x00008080, 0x80008080, 0x00808080, 0x80808080)
          else
            if j & 0x08 == 0 then
              Row8(j, 0x00000000, 0x80000000, 0x00800000, 0x80800000, 0x00008000, 0x80008000, 0x00808000, 0x80808000)
            else
              Row8(j, 0x00000080, 0x80000080, 0x00800080, 0x80800080, 0x00008080, 0x80008080, 0x00808080, 0x80808080)
        else
          if j & 0x10 == 0 then
            if j & 0x08 == 0 then
              Row8(j, 0x00000000, 0x80000000, 0x00800000, 0x80800000, 0x00008000, 0x80008000, 0x00808000, 0x80808000)
            else
              Row8(j, 0x00000080, 0x80000080, 0x00800080, 0x80800080, 0x00008080, 0x80008080, 0x00808080, 0x80808080)
          else
            if j & 0x08 == 0 then
              Row8(j, 0x00000000, 0x80000000, 0x00800000, 0x80800000, 0x00008000, 0x80008000, 0x00808000, 0x80808000)
            else
              Row8(j, 0x00000080, 0x80000080, 0x00800080, 0x80800080, 0x00008080, 0x80008080, 0x00808080, 0x80808080)
      else
        if j & 0x20 == 0 then
          if j & 0x10 == 0 then
            if j & 0x08 == 0 then
              Row8(j, 0x00000000, 0x80000000, 0x00800000, 0x80800000, 0x00008000, 0x80008000, 0x00808000, 0x80808000)
            else
              Row8(j, 0x00000080, 0x80000080, 0x00800080, 0x80800080, 0x00008080, 0x80008080, 0x00808080, 0x80808080)
          else
            if j & 0x08 == 0 then
              Row8(j, 0x00000000, 0x80000000, 0x00800000, 0x80800000, 0x00008000, 0x80008000, 0x00808000, 0x80808000)
            else
              Row8(j, 0x00000080, 0x80000080, 0x00800080, 0x80800080, 0x00008080, 0x80008080, 0x00808080, 0x80808080)
        else
          if j & 0x10 == 0 then
            if j & 0x08 == 0 then
              Row8(j, 0x00000000, 0x80000000, 0x00800000, 0x80800000, 0x00008000, 0x80008000, 0x00808000, 0x80808000)
            else
              Row8(j, 0x00000080, 0x80000080, 0x00800080, 0x80800080, 0x00008080, 0x80008080, 0x00808080, 0x80808080)
          else
            if j & 0x08 == 0 then
              Row8(j, 0x00000000, 0x80000000, 0x00800000, 0x80800000, 0x00008000, 0x80008000, 0x00808000, 0x80808000)
            else
              Row8(j, 0x00000080, 0x80000080, 0x00800080, 0x80800080, 0x00008080, 0x80008080, 0x00808080, 0x80808080)
  }

  function IpInvR(j: bv8): bv32 {
    if j & 0x80 == 0 then
      if j & 0x40 == 0 then
        if j & 0x20 == 0 then
          if j & 0x10 == 0 then
            if j & 0x08 == 0 then
              Row8(j, 0x00000000, 0x00000000, 0x00000000, 0x00000000, 0x00000000, 0x00000000, 0x00000000, 0x00000000)
            else
              Row8(j, 0x00000000, 0x00000000, 0x00000000, 0x00000000, 0x00000000, 0x00000000, 0x00000000, 0x00000000)
          else
            if j & 0x08 == 0 then
              Row8(j, 0x80000000, 0x80000000, 0x80000000, 0x80000000, 0x80000000, 0x80000000, 0x80000000, 0x80000000)
            else
              Row8(j, 0x80000000, 0x80000000, 0x80000000, 0x80000000, 0x80000000, 0x80000000, 0x80000000, 0x80000000)
        else
          if j & 0x10 == 0 then
            if j & 0x08 == 0 then
              Row8(j, 0x00800000, 0x00800000, 0x00800000, 0x00800000, 0x00800000, 0x00800000, 0x00800000, 0x00800000)
            else
              Row8(j, 0x00800000, 0x00800000, 0x00800000, 0x00800000, 0x00800000, 0x00800000, 0x00800000, 0x00800000)
          else
            if j & 0x08 == 0 then
              Row8(j, 0x80800000, 0x80800000, 0x80800000, 0x80800000, 0x80800000, 0x80800000, 0x80800000, 0x80800000)
            else
              Row8(j, 0x80800000, 0x80800000, 0x80800000, 0x80800000, 0x80800000, 0x80800000, 0x80800000, 0x80800000)
      else
        if j & 0x20 == 0 then
          if j & 0x10 == 0 then
            if j & 0x08 == 0 then
              Row8(j, 0x00008000, 0x00008000, 0x00008000, 0x00008000, 0x00008000, 0x00008000, 0x00008000, 0x00008000)
            else
              Row8(j, 0x00008000, 0x00008000, 0x00008000, 0x00008000, 0x00008000, 0x00008000, 0x00008000, 0x00008000)
          else
            if j & 0x08 == 0 then
              Row8(j, 0x80008000, 0x80008000, 0x80008000, 0x80008000, 0x80008000, 0x80008000, 0x80008000, 0x80008000)
            else
              Row8(j, 0x80008000, 0x80008000, 0x80008000, 0x80008000, 0x80008000, 0x80008000, 0x80008000, 0x80008000)
        else
          if j & 0x10 == 0 then
            if j & 0x08 == 0 then
              Row8(j, 0x00808000, 0x00808000, 0x00808000, 0x00808000, 0x00808000, 0x00808000, 0x00808000, 0x00808000)
            else
              Row8(j, 0x00808000, 0x00808000, 0x00808000, 0x00808000, 0x00808000, 0x00808000, 0x00808000, 0x00808000)
          else
            if j & 0x08 == 0 then
              Row8(j, 0x80808000, 0x80808000, 0x80808000, 0x80808000, 0x80808000, 0x80808000, 0x80808000, 0x80808000)
            else
              Row8(j, 0x80808000, 0x80808000, 0x80808000, 0x80808000, 0x80808000, 0x80808000, 0x80808000, 0x80808000)
    else
      if j & 0x40 == 0 then
        if j & 0x20 == 0 then
          if j & 0x10 == 0 then
            if j & 0x08 == 0 then
              Row8(j, 0x00000080, 0x00000080, 0x00000080, 0x00000080, 0x00000080, 0x00000080, 0x00000080, 0x00000080)
            else
              Row8(j, 0x00000080, 0x00000080, 0x00000080, 0x00000080, 0x00000080, 0x00000080, 0x00000080, 0x00000080)
          else
            if j & 0x08 == 0 then
              Row8(j, 0x80000080, 0x80000080, 0x80000080, 0x80000080, 0x80000080, 0x80000080, 0x80000080, 0x80000080)
            else
              Row8(j, 0x80000080, 0x80000080, 0x80000080, 0x80000080, 0x80000080, 0x80000080, 0x80000080, 0x80000080)
        else
          if j & 0x10 == 0 then
            if j & 0x08 == 0 then
              Row8(j, 0x00800080, 0x00800080, 0x00800080, 0x00800080, 0x00800080, 0x00800080, 0x00800080, 0x00800080)
            else
              Row8(j, 0x00800080, 0x00800080, 0x00800080, 0x00800080, 0x00800080, 0x00800080, 0x00800080, 0x00800080)
          else
            if j & 0x08 == 0 then
              Row8(j, 0x80800080, 0x80800080, 0x80800080, 0x80800080, 0x80800080, 0x80800080, 0x80800080, 0x80800080)
            else
              Row8(j, 0x80800080, 0x80800080, 0x80800080, 0x80800080, 0x80800080, 0x80800080, 0x80800080, 0x80800080)
      else
        if j & 0x20 == 0 then
          if j & 0x10 == 0 then
            if j & 0x08 == 0 then
              Row8(j, 0x00008080, 0x00008080, 0x00008080, 0x00008080, 0x00008080, 0x00008080, 0x00008080, 0x00008080)
            else
              Row8(j, 0x00008080, 0x00008080, 0x00008080, 0x00008080, 0x00008080, 0x00008080, 0x00008080, 0x00008080)
          else
            if j & 0x08 == 0 then
              Row8(j, 0x80008080, 0x80008080, 0x80008080, 0x80008080, 0x80008080, 0x80008080, 0x80008080, 0x80008080)
            else
              Row8(j, 0x80008080, 0x80008080, 0x80008080, 0x80008080, 0x80008080, 0x80008080, 0x80008080, 0x80008080)
        else
          if j & 0x10 == 0 then
            if j & 0x08 == 0 then
              Row8(j, 0x00808080, 0x00808080, 0x00808080, 0x00808080, 0x00808080, 0x00808080, 0x00808080, 0x00808080)
            else
              Row8(j, 0x00808080, 0x00808080, 0x00808080, 0x00808080, 0x00808080, 0x00808080, 0x00808080, 0x00808080)
          else
            if j & 0x08 == 0 then
              Row8(j, 0x80808080, 0x80808080, 0x80808080, 0x80808080, 0x80808080, 0x80808080, 0x80808080, 0x80808080)
            else
              Row8(j, 0x80808080, 0x80808080, 0x80808080, 0x80808080, 0x80808080, 0x80808080, 0x80808080, 0x80808080)
  }
}
