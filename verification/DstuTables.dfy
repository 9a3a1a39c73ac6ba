/**
  The encodings of Uapki.DstuParameters.cs, by field and form: an object identifier, or a SEQUENCE
  whose octets from behind the degree of the field on are written as one big-endian number.
 */
module DstuTables {
  import opened Prelude
  import opened X690

  function M233PbOid(): bytes {
    [0x06, 0x0D, 0x2A, 0x86, 0x24, 0x02, 0x01, 0x01, 0x01, 0x01, 0x03, 0x01, 0x01, 0x02, 0x05]
  }

  function M233PbLe(): bytes {
    [0x30, 0x74, 0x30, 0x0F, 0x02, 0x02, 0x00, 0xE9] + Octets(
      0x3009020101020104020109020101041E2C4D45CE6E93AA26038A3BDDF54ED51BA2647ECFC73455679550B1736900021E01000000000000000000000000000013E974E72F8A6922031D2603CFE0D7041E96FE5EB2EE03D02827F345351D76313C5BF38D11A13BF8CDB626A5CD3F00,
      0x6E)
  }

  function M233PbBe(): bytes {
    [0x30, 0x74, 0x30, 0x0F, 0x02, 0x02, 0x00, 0xE9] + Octets(
      0x3009020101020104020109020101041E006973B15095675534C7CF7E64A21BD54EF5DD3B8A0326AA936ECE454D2C021E01000000000000000000000000000013E974E72F8A6922031D2603CFE0D7041E003FCDA526B6CDF83BA1118DF35B3C31761D3545F32728D003EEB25EFE96,
      0x6E)
  }

  function M257PbOid(): bytes {
    [0x06, 0x0D, 0x2A, 0x86, 0x24, 0x02, 0x01, 0x01, 0x01, 0x01, 0x03, 0x01, 0x01, 0x02, 0x06]
  }

  function M257PbLe(): bytes {
    [0x30, 0x75, 0x30, 0x07, 0x02, 0x02, 0x01, 0x01] + Octets(
      0x02010C020100042110BEE3DB6AEA9E1F86578C45C12594FF942394A7D738F9187E6515017294F4CE01022100800000000000000000000000000000006759213AF182E987D3E17714907D470D0421B60FD2D8DCE8A93423C6101BCA91C47A007E6C300B26CD556C9B0E7D20EF292A00,
      0x6F)
  }

  function M257PbBe(): bytes {
    [0x30, 0x75, 0x30, 0x07, 0x02, 0x02, 0x01, 0x01] + Octets(
      0x02010C020100042101CEF494720115657E18F938D7A7942394FF9425C1458C57861F9EEA6ADBE3BE10022100800000000000000000000000000000006759213AF182E987D3E17714907D470D0421002A29EF207D0E9B6C55CD260B306C7E007AC491CA1B10C62334A9E8DCD8D20FB6,
      0x6F)
  }

  function M307PbOid(): bytes {
    [0x06, 0x0D, 0x2A, 0x86, 0x24, 0x02, 0x01, 0x01, 0x01, 0x01, 0x03, 0x01, 0x01, 0x02, 0x07]
  }

  function M307PbLe(): bytes {
    [0x30, 0x81, 0x8F, 0x30, 0x0F, 0x02, 0x02, 0x01, 0x33] + Octets(
      0x30090201020201040201080201010427BB6849908601C9BD90608BF10D0541E2E2E299C5C096424FE93D6D6C5E4B05B56636D5F7C79303022703FFFFFFFFFFFFFFFFFFFFFFFFFFFFFFFFFFFFFFC079C2F3825DA70D390FBBA588D4604022B7B70427AA32726E2DC0523C7467316D279B237A085A82CD5CF76BD1F1921E4C9824021A299D188BEE1602,
      0x89)
  }

  function M307PbBe(): bytes {
    [0x30, 0x81, 0x8F, 0x30, 0x0F, 0x02, 0x02, 0x01, 0x33] + Octets(
      0x300902010202010402010802010104270393C7F7D53666B5054B5E6C6D3DE94F4296C0C599E2E2E241050DF18B6090BDC90186904968BB022703FFFFFFFFFFFFFFFFFFFFFFFFFFFFFFFFFFFFFFC079C2F3825DA70D390FBBA588D4604022B7B704270216EE8B189D291A0224984C1E92F1D16BF75CCD825A087A239B276D3167743C52C02D6E7232AA,
      0x89)
  }

  function M367PbOid(): bytes {
    [0x06, 0x0D, 0x2A, 0x86, 0x24, 0x02, 0x01, 0x01, 0x01, 0x01, 0x03, 0x01, 0x01, 0x02, 0x08]
  }

  function M367PbLe(): bytes {
    [0x30, 0x81, 0x9C, 0x30, 0x07, 0x02, 0x02, 0x01, 0x6F] + Octets(
      0x020115020101042E365199567B435597A7794C39923DF9B8DACA42FE2A0C4BA6A46ABF476B55474465D57A62D1F3A6B7B042D28AFC43022E40000000000000000000000000000000000000000000009C300B75A3FA824F22428FD28CE8812245EF44049B2D49042EA0B9B34135374ABF789F109AE512FEB53996E081A60C401AE87B3E41767A1961F9D3E09AA9498CF012D5DD6E4A32,
      0x96)
  }

  function M367PbBe(): bytes {
    [0x30, 0x81, 0x9C, 0x30, 0x07, 0x02, 0x02, 0x01, 0x6F] + Octets(
      0x020115020101042E43FC8AD242B0B7A6F3D1627AD5654447556B47BF6AA4A64B0C2AFE42CADAB8F93D92394C79A79755437B56995136022E40000000000000000000000000000000000000000000009C300B75A3FA824F22428FD28CE8812245EF44049B2D49042E324A6EDDD512F08C49A99AE0D3F961197A76413E7BE81A400CA681E09639B5FE12E59A109F78BF4A373541B3B9A0,
      0x96)
  }

  function M431PbOid(): bytes {
    [0x06, 0x0D, 0x2A, 0x86, 0x24, 0x02, 0x01, 0x01, 0x01, 0x01, 0x03, 0x01, 0x01, 0x02, 0x09]
  }

  function M431PbLe(): bytes {
    [0x30, 0x81, 0xBC, 0x30, 0x0F, 0x02, 0x02, 0x01, 0xAF] + Octets(
      0x30090201010201030201050201010436F3CA40C669A4DA173149CA12C32DAE186B53AC6BC6365997DEAEAE8AD2D888F9BFD53401694EF9C4273D8CFE6DC28F706A0F4910CE0302363FFFFFFFFFFFFFFFFFFFFFFFFFFFFFFFFFFFFFFFFFFFFFFFFFFFFFBA3175458009A8C0A724F02F81AA8A1FCBAF80D90C7A95110504CF04367C857C94C5433BFD991E17C22684065850A9A249ED7BC249AE5A4E878689F872EF7AD524082EC3038E9AEDE7BA6BA13381D979BA621A,
      0xB6)
  }

  function M431PbBe(): bytes {
    [0x30, 0x81, 0xBC, 0x30, 0x0F, 0x02, 0x02, 0x01, 0xAF] + Octets(
      0x3009020101020103020105020101043603CE10490F6A708FC26DFE8C3D27C4F94E690134D5BFF988D8D28AAEAEDE975936C66BAC536B18AE2DC312CA493117DAA469C640CAF302363FFFFFFFFFFFFFFFFFFFFFFFFFFFFFFFFFFFFFFFFFFFFFFFFFFFFFBA3175458009A8C0A724F02F81AA8A1FCBAF80D90C7A95110504CF04361A62BA79D98133A16BBAE7ED9A8E03C32E0824D57AEF72F88986874E5AAE49C27BED49A2A95058068426C2171E99FD3B43C5947C857C,
      0xB6)
  }
}
