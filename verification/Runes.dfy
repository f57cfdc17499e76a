/** The classes of Unicode code points that the text helpers distinguish. */
module Runes {

  /** `unicode.IsSpace`: the code points with the property White_Space. */
  predicate IsSpace(r: int) {
    || 0x09 <= r <= 0x0d || r == 0x20 || r == 0x85 || r == 0xa0 || r == 0x1680
    || 0x2000 <= r <= 0x200a || r == 0x2028 || r == 0x2029 || r == 0x202f || r == 0x205f || r == 0x3000
  }

  /** Category Cf, the format characters. */
  predicate IsFormat(r: int) {
    || r == 0xad || 0x600 <= r <= 0x605 || r == 0x61c || r == 0x6dd || r == 0x70f || 0x890 <= r <= 0x891 || r == 0x8e2
    || r == 0x180e || 0x200b <= r <= 0x200f || 0x202a <= r <= 0x202e || 0x2060 <= r <= 0x2064 || 0x2066 <= r <= 0x206f
    || r == 0xfeff || 0xfff9 <= r <= 0xfffb || r == 0x110bd || r == 0x110cd || 0x13430 <= r <= 0x1343f
    || 0x1bca0 <= r <= 0x1bca3 || 0x1d173 <= r <= 0x1d17a || r == 0xe0001 || 0xe0020 <= r <= 0xe007f
  }

  predicate IsControl(r: int) { 0 <= r <= 0x1f || 0x7f <= r <= 0x9f }
}
