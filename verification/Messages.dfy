/** The messages exchanged between library, seed runtime and solving child. */
module Messages {

  const API_VERSION := 3

  datatype Pipe = Pipe(readEnd: int, writeEnd: int)

  datatype HeaderData = HeaderData(
    literals: int, clauses: int, prefixdepth: int,
    childRead: Pipe, childWrite: Pipe, toParent: Pipe)

  datatype Msg =
    | Undefined
    | Header(apiVersion: int, data: HeaderData)
    | Quantifier(lit: int)
    | Literal(lit: int)
    | Fork(waitForExitCode: bool)
    | ForkReport(pid: int)
    | Started(version: int)
    | Solve
    | ExitCode(code: int)
    | Destructed
}
