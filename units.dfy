/** `enum Units: String` and its raw values, as stored with each list item. */
module Units {
  import opened Optional

  datatype Unit = Kg | Liter | Pack | Piece

  /** `unit.rawValue` */
  function RawValue(u: Unit): string {
    match u
    case Kg => "units.kg"
    case Liter => "units.liter"
    case Pack => "units.pack"
    case Piece => "units.piece"
  }

  /** `Units(rawValue: raw)`: the unit whose raw value is `raw`, if any. */
  function FromRawValue(raw: string): (r: Option<Unit>)
    ensures forall u :: r == Some(u) <==> raw == RawValue(u)
  {
    if raw == "units.kg" then Some(Kg)
    else if raw == "units.liter" then Some(Liter)
    else if raw == "units.pack" then Some(Pack)
    else if raw == "units.piece" then Some(Piece)
    else None
  }

  /** `Units(rawValue: raw) ?? .piece`: an unknown raw value becomes a piece. */
  function FromRawValueOrPiece(raw: string): (u: Unit)
    ensures raw == RawValue(u) || (u == Piece && FromRawValue(raw).None?)
  {
    FromRawValue(raw).GetOr(Piece)
  }
}
