/** The base importer's two address helpers. An address arrives as one line of
    comma-separated parts whose last part is the postcode. */
module Addresses {
  import opened Text

  /** `address.split(',')[-1]`: the text after the last comma, or the whole
      address when it has no comma. */
  function PostcodeFromAddress(address: string): (r: string)
    ensures ',' !in r
    ensures |r| <= |address| && r == address[|address| - |r|..]
    ensures |r| < |address| ==> address[|address| - |r| - 1] == ','
    ensures ',' !in address ==> r == address
  {
    var parts := Split(address, ',');
    SplitLast(address, ',');
    parts[|parts| - 1]
  }

  /** `"\n".join(string.split(',')[:-1])`: every part but the last, one per line. The
      result has no comma left in it. */
  function StringToNewlineAddr(address: string): (r: string)
    ensures ',' !in r
    ensures ',' !in address ==> r == ""
  {
    var parts := Split(address, ',');
    assert ',' !in address ==> parts == [address] by {
      if ',' !in address {
        SplitWithoutSeparator(address, ',');
      }
    }
    var init := parts[..|parts| - 1];
    JoinAvoids("\n", init, ',');
    Join("\n", init)
  }

  /** The two helpers split an address between them: for an address on one line
      that has a comma, the lines of the first (read back as commas), a comma and
      the postcode give the address back. */
  lemma AddressRoundTrip(address: string)
    requires '\n' !in address
    requires ',' in address
    ensures ReplaceChar(StringToNewlineAddr(address), '\n', ',') + "," + PostcodeFromAddress(address)
         == address
  {
    var parts := Split(address, ',');
    var init, last := parts[..|parts| - 1], parts[|parts| - 1];
    SplitWithSeparator(address, ',');
    assert StringToNewlineAddr(address) == Join("\n", init);
    assert PostcodeFromAddress(address) == last;
    assert forall k :: 0 <= k < |init| ==> '\n' !in init[k] by {
      SplitPieceChars(address, ',');
      forall k | 0 <= k < |init| ensures '\n' !in init[k] {
        assert init[k] == parts[k];
      }
    }
    ReplaceJoin(init, '\n', ',');
    assert ReplaceChar(StringToNewlineAddr(address), '\n', ',') == Join(",", init);
    JoinSnoc(",", parts);
    JoinSplit(address, ',');
  }
}
