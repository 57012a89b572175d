/** `ApiParameter`: one method parameter of an action together with where its value travels. */
module ApiParameters {
  import opened ClrTypes

  /** `ApiParameterLocation`. Upload parameters are `Body` too; `IsFile` tells them apart. */
  datatype Location = Query | Path | Body

  /** Name, type and location are fixed when the parameter is built. */
  datatype ApiParameter = ApiParameter(name: string, paramType: Type, location: Location) {

    /** The parameter is an upload: its declared type is `IFormFile`. */
    predicate IsFile() {
      paramType == IFormFile
    }
  }
}
