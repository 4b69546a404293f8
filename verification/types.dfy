/** The records `board list` works on. */
module Types {

  /** Identification properties of a port (vendor id, product id, ...). */
  type Prefs = map<string, string>

  /** A port as a discovery lists it. */
  datatype Port = Port(address: string, protocol: string, protocolLabel: string, identificationPrefs: Prefs)

  /** A board definition of the catalog; only its name and FQBN are read here. */
  datatype CatalogBoard = CatalogBoard(name: string, fqbn: string)

  /** The board catalog's lookup from identification properties to the
      matching board definitions, in the catalog's order. */
  type Identify = Prefs -> seq<CatalogBoard>

  /** `detectedBoard`: one candidate board of a port. */
  datatype DetectedBoard = DetectedBoard(name: string, fqbn: string)

  /** `detectedPort`: a listed port with its candidate boards. */
  datatype DetectedPort = DetectedPort(address: string, protocol: string, protocolLabel: string, boards: seq<DetectedBoard>)

  /** One row of the terminal table, columns "Port", "Type", "Board Name", "FQBN". */
  datatype Row = Row(port: string, kind: string, boardName: string, fqbn: string)
}
