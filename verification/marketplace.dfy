/** The supported marketplaces and their physical label sizes. */
module Marketplaces {

  datatype Marketplace = Flipkart | Meesho | Amazon | Myntra | Snapdeal

  datatype SizeMm = SizeMm(width: int, height: int)

  /** The label size table, in millimetres. */
  function LabelSizeMm(m: Marketplace): (s: SizeMm)
    ensures 100 <= s.width <= 105 && 148 <= s.height <= 152
    ensures s.width < s.height
    ensures m == Flipkart ==> s == SizeMm(100, 148)
  {
    match m
    case Flipkart => SizeMm(100, 148)
    case Meesho => SizeMm(100, 150)
    case Amazon => SizeMm(102, 152)
    case Myntra => SizeMm(100, 152)
    case Snapdeal => SizeMm(105, 148)
  }
}
