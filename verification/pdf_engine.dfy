/**
 * The boundary to the PDF engine (iText). The engine is not modelled: the
 * binder's calls into it are recorded as `EngineOp`s, and what a parsed
 * template tells the binder is reduced to the positions of its form fields.
 */
module PdfEngine {
  import opened Lang

  /** A `java.awt.Image`, known only by identity. */
  datatype Image = Image(handle: nat)

  /** What `AcroFields.getFieldPositions` returns for a field (page and corners); the numbers are not interpreted. */
  datatype Position = Position(coordinates: seq<real>)

  /** The form of a parsed template: the fields the engine can give a position for. */
  datatype Form = Form(positions: map<string, Position>)

  /** One call the binder makes on the engine's reader, stamper, field accessor or output stream. */
  datatype EngineOp =
    | OpenReader(template: seq<Byte>)                       // new PdfReader(bytes)
    | OpenStamper                                           // new PdfStamper(reader, output)
    | SetMoreInfo(info: map<string, Option<string>>)                // stamper.setMoreInfo
    | ViewerPref(displayDocTitle: bool)                     // stamper.addViewerPreference(DISPLAYDOCTITLE, ..)
    | SetField(name: string, value: Option<string>)         // form.setField
    | ReplaceImage(name: string, position: Position, image: Image)  // PdfUtil.changeFieldToImage
    | FullCompression                                       // stamper.setFullCompression
    | RemoveFields                                          // reader.removeFields
    | Flatten                                               // stamper.setFormFlattening(true)
    | Consolidate                                           // reader.consolidateNamedDestinations
    | EliminateShared                                       // reader.eliminateSharedStreams
    | FlushOutput                                           // output.flush
    | CloseOutput                                           // output.close
    | CloseReader                                           // reader.close
    | CloseStamper                                          // stamper.close

  /**
   * The bytes one run leaves in the output stream, abstracted as the calls
   * of that run: the engine serialises the template it read with the
   * changes it was asked to make.
   */
  type Output = seq<EngineOp>
}
