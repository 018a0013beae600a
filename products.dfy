/** The catalogue's records: a product has a name, a colour and a size. */
module Products {

  /** The colours, in declaration order red, green, blue. */
  datatype Color = Red | Green | Blue

  /** The sizes, in declaration order small, medium, large. */
  datatype Size = Small | Medium | Large

  /** A product record; it is never changed once built. */
  datatype Product = Product(name: string, color: Color, size: Size)
}
