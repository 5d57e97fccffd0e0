/** The POSIX CRC: the table, in rows of sixteen, and that each entry is eight steps of division. */
module CrcTable {
  const POLY: bv32 := 0x04c1_1db7

  // polynomials over the two-element field, coefficients as bits

  /** Sum, and difference. */
  function Add(x: bv32, y: bv32): bv32 {
    x ^ y
  }

  /** Times x, the coefficient of x^32 dropped. */
  function Times(r: bv32): bv32 {
    r << 1
  }

  /** The coefficient of x^31. */
  predicate Top(r: bv32) {
    r & 0x8000_0000 != 0
  }

  /** One division step: times x, minus the polynomial if a coefficient of x^32 appears. */
  function Feed(r: bv32): bv32 {
    if Top(r) then Add(Times(r), POLY) else Times(r)
  }

  function Feed8(r: bv32): bv32 {
    Feed(Feed(Feed(Feed(Feed(Feed(Feed(Feed(r))))))))
  }

  /** `crctab`, in rows of sixteen. */
  function Table(i: bv8): bv32 {
    if i < 0x10 then Row0(i)
    else if i < 0x20 then Row1(i)
    else if i < 0x30 then Row2(i)
    else if i < 0x40 then Row3(i)
    else if i < 0x50 then Row4(i)
    else if i < 0x60 then Row5(i)
    else if i < 0x70 then Row6(i)
    else if i < 0x80 then Row7(i)
    else if i < 0x90 then Row8(i)
    else if i < 0xa0 then Row9(i)
    else if i < 0xb0 then Row10(i)
    else if i < 0xc0 then Row11(i)
    else if i < 0xd0 then Row12(i)
    else if i < 0xe0 then Row13(i)
    else if i < 0xf0 then Row14(i)
    else Row15(i)
  }

  function Row0(i: bv8): bv32 {
    if i == 0x00 then 0x0000_0000
    else if i == 0x01 then 0x04c1_1db7
    else if i == 0x02 then 0x0982_3b6e
    else if i == 0x03 then 0x0d43_26d9
    else if i == 0x04 then 0x1304_76dc
    else if i == 0x05 then 0x17c5_6b6b
    else if i == 0x06 then 0x1a86_4db2
    else if i == 0x07 then 0x1e47_5005
    else if i == 0x08 then 0x2608_edb8
    else if i == 0x09 then 0x22c9_f00f
    else if i == 0x0a then 0x2f8a_d6d6
    else if i == 0x0b then 0x2b4b_cb61
    else if i == 0x0c then 0x350c_9b64
    else if i == 0x0d then 0x31cd_86d3
    else if i == 0x0e then 0x3c8e_a00a
    else 0x384f_bdbd
  }

  function Row1(i: bv8): bv32 {
    if i == 0x10 then 0x4c11_db70
    else if i == 0x11 then 0x48d0_c6c7
    else if i == 0x12 then 0x4593_e01e
    else if i == 0x13 then 0x4152_fda9
    else if i == 0x14 then 0x5f15_adac
    else if i == 0x15 then 0x5bd4_b01b
    else if i == 0x16 then 0x5697_96c2
    else if i == 0x17 then 0x5256_8b75
    else if i == 0x18 then 0x6a19_36c8
    else if i == 0x19 then 0x6ed8_2b7f
    else if i == 0x1a then 0x639b_0da6
    else if i == 0x1b then 0x675a_1011
    else if i == 0x1c then 0x791d_4014
    else if i == 0x1d then 0x7ddc_5da3
    else if i == 0x1e then 0x709f_7b7a
    else 0x745e_66cd
  }

  function Row2(i: bv8): bv32 {
    if i == 0x20 then 0x9823_b6e0
    else if i == 0x21 then 0x9ce2_ab57
    else if i == 0x22 then 0x91a1_8d8e
    else if i == 0x23 then 0x9560_9039
    else if i == 0x24 then 0x8b27_c03c
    else if i == 0x25 then 0x8fe6_dd8b
    else if i == 0x26 then 0x82a5_fb52
    else if i == 0x27 then 0x8664_e6e5
    else if i == 0x28 then 0xbe2b_5b58
    else if i == 0x29 then 0xbaea_46ef
    else if i == 0x2a then 0xb7a9_6036
    else if i == 0x2b then 0xb368_7d81
    else if i == 0x2c then 0xad2f_2d84
    else if i == 0x2d then 0xa9ee_3033
    else if i == 0x2e then 0xa4ad_16ea
    else 0xa06c_0b5d
  }

  function Row3(i: bv8): bv32 {
    if i == 0x30 then 0xd432_6d90
    else if i == 0x31 then 0xd0f3_7027
    else if i == 0x32 then 0xddb0_56fe
    else if i == 0x33 then 0xd971_4b49
    else if i == 0x34 then 0xc736_1b4c
    else if i == 0x35 then 0xc3f7_06fb
    else if i == 0x36 then 0xceb4_2022
    else if i == 0x37 then 0xca75_3d95
    else if i == 0x38 then 0xf23a_8028
    else if i == 0x39 then 0xf6fb_9d9f
    else if i == 0x3a then 0xfbb8_bb46
    else if i == 0x3b then 0xff79_a6f1
    else if i == 0x3c then 0xe13e_f6f4
    else if i == 0x3d then 0xe5ff_eb43
    else if i == 0x3e then 0xe8bc_cd9a
    else 0xec7d_d02d
  }

  function Row4(i: bv8): bv32 {
    if i == 0x40 then 0x3486_7077
    else if i == 0x41 then 0x3047_6dc0
    else if i == 0x42 then 0x3d04_4b19
    else if i == 0x43 then 0x39c5_56ae
    else if i == 0x44 then 0x2782_06ab
    else if i == 0x45 then 0x2343_1b1c
    else if i == 0x46 then 0x2e00_3dc5
    else if i == 0x47 then 0x2ac1_2072
    else if i == 0x48 then 0x128e_9dcf
    else if i == 0x49 then 0x164f_8078
    else if i == 0x4a then 0x1b0c_a6a1
    else if i == 0x4b then 0x1fcd_bb16
    else if i == 0x4c then 0x018a_eb13
    else if i == 0x4d then 0x054b_f6a4
    else if i == 0x4e then 0x0808_d07d
    else 0x0cc9_cdca
  }

  function Row5(i: bv8): bv32 {
    if i == 0x50 then 0x7897_ab07
    else if i == 0x51 then 0x7c56_b6b0
    else if i == 0x52 then 0x7115_9069
    else if i == 0x53 then 0x75d4_8dde
    else if i == 0x54 then 0x6b93_dddb
    else if i == 0x55 then 0x6f52_c06c
    else if i == 0x56 then 0x6211_e6b5
    else if i == 0x57 then 0x66d0_fb02
    else if i == 0x58 then 0x5e9f_46bf
    else if i == 0x59 then 0x5a5e_5b08
    else if i == 0x5a then 0x571d_7dd1
    else if i == 0x5b then 0x53dc_6066
    else if i == 0x5c then 0x4d9b_3063
    else if i == 0x5d then 0x495a_2dd4
    else if i == 0x5e then 0x4419_0b0d
    else 0x40d8_16ba
  }

  function Row6(i: bv8): bv32 {
    if i == 0x60 then 0xaca5_c697
    else if i == 0x61 then 0xa864_db20
    else if i == 0x62 then 0xa527_fdf9
    else if i == 0x63 then 0xa1e6_e04e
    else if i == 0x64 then 0xbfa1_b04b
    else if i == 0x65 then 0xbb60_adfc
    else if i == 0x66 then 0xb623_8b25
    else if i == 0x67 then 0xb2e2_9692
    else if i == 0x68 then 0x8aad_2b2f
    else if i == 0x69 then 0x8e6c_3698
    else if i == 0x6a then 0x832f_1041
    else if i == 0x6b then 0x87ee_0df6
    else if i == 0x6c then 0x99a9_5df3
    else if i == 0x6d then 0x9d68_4044
    else if i == 0x6e then 0x902b_669d
    else 0x94ea_7b2a
  }

  function Row7(i: bv8): bv32 {
    if i == 0x70 then 0xe0b4_1de7
    else if i == 0x71 then 0xe475_0050
    else if i == 0x72 then 0xe936_2689
    else if i == 0x73 then 0xedf7_3b3e
    else if i == 0x74 then 0xf3b0_6b3b
    else if i == 0x75 then 0xf771_768c
    else if i == 0x76 then 0xfa32_5055
    else if i == 0x77 then 0xfef3_4de2
    else if i == 0x78 then 0xc6bc_f05f
    else if i == 0x79 then 0xc27d_ede8
    else if i == 0x7a then 0xcf3e_cb31
    else if i == 0x7b then 0xcbff_d686
    else if i == 0x7c then 0xd5b8_8683
    else if i == 0x7d then 0xd179_9b34
    else if i == 0x7e then 0xdc3a_bded
    else 0xd8fb_a05a
  }

  function Row8(i: bv8): bv32 {
    if i == 0x80 then 0x690c_e0ee
    else if i == 0x81 then 0x6dcd_fd59
    else if i == 0x82 then 0x608e_db80
    else if i == 0x83 then 0x644f_c637
    else if i == 0x84 then 0x7a08_9632
    else if i == 0x85 then 0x7ec9_8b85
    else if i == 0x86 then 0x738a_ad5c
    else if i == 0x87 then 0x774b_b0eb
    else if i == 0x88 then 0x4f04_0d56
    else if i == 0x89 then 0x4bc5_10e1
    else if i == 0x8a then 0x4686_3638
    else if i == 0x8b then 0x4247_2b8f
    else if i == 0x8c then 0x5c00_7b8a
    else if i == 0x8d then 0x58c1_663d
    else if i == 0x8e then 0x5582_40e4
    else 0x5143_5d53
  }

  function Row9(i: bv8): bv32 {
    if i == 0x90 then 0x251d_3b9e
    else if i == 0x91 then 0x21dc_2629
    else if i == 0x92 then 0x2c9f_00f0
    else if i == 0x93 then 0x285e_1d47
    else if i == 0x94 then 0x3619_4d42
    else if i == 0x95 then 0x32d8_50f5
    else if i == 0x96 then 0x3f9b_762c
    else if i == 0x97 then 0x3b5a_6b9b
    else if i == 0x98 then 0x0315_d626
    else if i == 0x99 then 0x07d4_cb91
    else if i == 0x9a then 0x0a97_ed48
    else if i == 0x9b then 0x0e56_f0ff
    else if i == 0x9c then 0x1011_a0fa
    else if i == 0x9d then 0x14d0_bd4d
    else if i == 0x9e then 0x1993_9b94
    else 0x1d52_8623
  }

  function Row10(i: bv8): bv32 {
    if i == 0xa0 then 0xf12f_560e
    else if i == 0xa1 then 0xf5ee_4bb9
    else if i == 0xa2 then 0xf8ad_6d60
    else if i == 0xa3 then 0xfc6c_70d7
    else if i == 0xa4 then 0xe22b_20d2
    else if i == 0xa5 then 0xe6ea_3d65
    else if i == 0xa6 then 0xeba9_1bbc
    else if i == 0xa7 then 0xef68_060b
    else if i == 0xa8 then 0xd727_bbb6
    else if i == 0xa9 then 0xd3e6_a601
    else if i == 0xaa then 0xdea5_80d8
    else if i == 0xab then 0xda64_9d6f
    else if i == 0xac then 0xc423_cd6a
    else if i == 0xad then 0xc0e2_d0dd
    else if i == 0xae then 0xcda1_f604
    else 0xc960_ebb3
  }

  function Row11(i: bv8): bv32 {
    if i == 0xb0 then 0xbd3e_8d7e
    else if i == 0xb1 then 0xb9ff_90c9
    else if i == 0xb2 then 0xb4bc_b610
    else if i == 0xb3 then 0xb07d_aba7
    else if i == 0xb4 then 0xae3a_fba2
    else if i == 0xb5 then 0xaafb_e615
    else if i == 0xb6 then 0xa7b8_c0cc
    else if i == 0xb7 then 0xa379_dd7b
    else if i == 0xb8 then 0x9b36_60c6
    else if i == 0xb9 then 0x9ff7_7d71
    else if i == 0xba then 0x92b4_5ba8
    else if i == 0xbb then 0x9675_461f
    else if i == 0xbc then 0x8832_161a
    else if i == 0xbd then 0x8cf3_0bad
    else if i == 0xbe then 0x81b0_2d74
    else 0x8571_30c3
  }

  function Row12(i: bv8): bv32 {
    if i == 0xc0 then 0x5d8a_9099
    else if i == 0xc1 then 0x594b_8d2e
    else if i == 0xc2 then 0x5408_abf7
    else if i == 0xc3 then 0x50c9_b640
    else if i == 0xc4 then 0x4e8e_e645
    else if i == 0xc5 then 0x4a4f_fbf2
    else if i == 0xc6 then 0x470c_dd2b
    else if i == 0xc7 then 0x43cd_c09c
    else if i == 0xc8 then 0x7b82_7d21
    else if i == 0xc9 then 0x7f43_6096
    else if i == 0xca then 0x7200_464f
    else if i == 0xcb then 0x76c1_5bf8
    else if i == 0xcc then 0x6886_0bfd
    else if i == 0xcd then 0x6c47_164a
    else if i == 0xce then 0x6104_3093
    else 0x65c5_2d24
  }

  function Row13(i: bv8): bv32 {
    if i == 0xd0 then 0x119b_4be9
    else if i == 0xd1 then 0x155a_565e
    else if i == 0xd2 then 0x1819_7087
    else if i == 0xd3 then 0x1cd8_6d30
    else if i == 0xd4 then 0x029f_3d35
    else if i == 0xd5 then 0x065e_2082
    else if i == 0xd6 then 0x0b1d_065b
    else if i == 0xd7 then 0x0fdc_1bec
    else if i == 0xd8 then 0x3793_a651
    else if i == 0xd9 then 0x3352_bbe6
    else if i == 0xda then 0x3e11_9d3f
    else if i == 0xdb then 0x3ad0_8088
    else if i == 0xdc then 0x2497_d08d
    else if i == 0xdd then 0x2056_cd3a
    else if i == 0xde then 0x2d15_ebe3
    else 0x29d4_f654
  }

  function Row14(i: bv8): bv32 {
    if i == 0xe0 then 0xc5a9_2679
    else if i == 0xe1 then 0xc168_3bce
    else if i == 0xe2 then 0xcc2b_1d17
    else if i == 0xe3 then 0xc8ea_00a0
    else if i == 0xe4 then 0xd6ad_50a5
    else if i == 0xe5 then 0xd26c_4d12
    else if i == 0xe6 then 0xdf2f_6bcb
    else if i == 0xe7 then 0xdbee_767c
    else if i == 0xe8 then 0xe3a1_cbc1
    else if i == 0xe9 then 0xe760_d676
    else if i == 0xea then 0xea23_f0af
    else if i == 0xeb then 0xeee2_ed18
    else if i == 0xec then 0xf0a5_bd1d
    else if i == 0xed then 0xf464_a0aa
    else if i == 0xee then 0xf927_8673
    else 0xfde6_9bc4
  }

  function Row15(i: bv8): bv32 {
    if i == 0xf0 then 0x89b8_fd09
    else if i == 0xf1 then 0x8d79_e0be
    else if i == 0xf2 then 0x803a_c667
    else if i == 0xf3 then 0x84fb_dbd0
    else if i == 0xf4 then 0x9abc_8bd5
    else if i == 0xf5 then 0x9e7d_9662
    else if i == 0xf6 then 0x933e_b0bb
    else if i == 0xf7 then 0x97ff_ad0c
    else if i == 0xf8 then 0xafb0_10b1
    else if i == 0xf9 then 0xab71_0d06
    else if i == 0xfa then 0xa632_2bdf
    else if i == 0xfb then 0xa2f3_3668
    else if i == 0xfc then 0xbcb4_666d
    else if i == 0xfd then 0xb875_7bda
    else if i == 0xfe then 0xb536_5d03
    else 0xb1f7_40b4
  }

  lemma Row0Divides(i: bv8)
    requires 0x00 <= i <= 0x0f
    ensures Row0(i) == Feed8((i as bv32) << 24)
  {
  }

  lemma Row1Divides(i: bv8)
    requires 0x10 <= i <= 0x1f
    ensures Row1(i) == Feed8((i as bv32) << 24)
  {
  }

  lemma Row2Divides(i: bv8)
    requires 0x20 <= i <= 0x2f
    ensures Row2(i) == Feed8((i as bv32) << 24)
  {
  }

  lemma Row3Divides(i: bv8)
    requires 0x30 <= i <= 0x3f
    ensures Row3(i) == Feed8((i as bv32) << 24)
  {
  }

  lemma Row4Divides(i: bv8)
    requires 0x40 <= i <= 0x4f
    ensures Row4(i) == Feed8((i as bv32) << 24)
  {
  }

  lemma Row5Divides(i: bv8)
    requires 0x50 <= i <= 0x5f
    ensures Row5(i) == Feed8((i as bv32) << 24)
  {
  }

  lemma Row6Divides(i: bv8)
    requires 0x60 <= i <= 0x6f
    ensures Row6(i) == Feed8((i as bv32) << 24)
  {
  }

  lemma Row7Divides(i: bv8)
    requires 0x70 <= i <= 0x7f
    ensures Row7(i) == Feed8((i as bv32) << 24)
  {
  }

  lemma Row8Divides(i: bv8)
    requires 0x80 <= i <= 0x8f
    ensures Row8(i) == Feed8((i as bv32) << 24)
  {
  }

  lemma Row9Divides(i: bv8)
    requires 0x90 <= i <= 0x9f
    ensures Row9(i) == Feed8((i as bv32) << 24)
  {
  }

  lemma Row10Divides(i: bv8)
    requires 0xa0 <= i <= 0xaf
    ensures Row10(i) == Feed8((i as bv32) << 24)
  {
  }

  lemma Row11Divides(i: bv8)
    requires 0xb0 <= i <= 0xbf
    ensures Row11(i) == Feed8((i as bv32) << 24)
  {
  }

  lemma Row12Divides(i: bv8)
    requires 0xc0 <= i <= 0xcf
    ensures Row12(i) == Feed8((i as bv32) << 24)
  {
  }

  lemma Row13Divides(i: bv8)
    requires 0xd0 <= i <= 0xdf
    ensures Row13(i) == Feed8((i as bv32) << 24)
  {
  }

  lemma Row14Divides(i: bv8)
    requires 0xe0 <= i <= 0xef
    ensures Row14(i) == Feed8((i as bv32) << 24)
  {
  }

  lemma Row15Divides(i: bv8)
    requires 0xf0 <= i <= 0xff
    ensures Row15(i) == Feed8((i as bv32) << 24)
  {
  }
}
