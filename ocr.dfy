/** What an OCR engine reports about a line of text on the page. */
module Ocr {
  /** A bounding box in image coordinates: top-left corner, width and height. */
  datatype Box = Box(top: real, left: real, width: real, height: real)
}
