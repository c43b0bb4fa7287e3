/** The HTTP status codes the controller answers with. */
module Http {
  const OK := 200
  const CREATED := 201
  const BAD_REQUEST := 400
  const FORBIDDEN := 403
  const NOT_FOUND := 404
  const CONFLICT := 409
  const UNPROCESSABLE_ENTITY := 422
  const INTERNAL_SERVER_ERROR := 500
}
