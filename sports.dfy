/** The sport record of the remote catalog (src/Components/HomePage.tsx, interface Sport). */
module Sports {

  /** One catalog entry. `idSport` identifies the sport; the remaining fields are display data. */
  datatype Sport = Sport(
    idSport: string,
    strSport: string,
    strFormat: string,
    strSportThumb: string,
    strSportIconGreen: string,
    strSportDescription: string)
}
