/** The HTTP status codes the handlers answer with; writing the response is left to the transport. */
module Http {

  datatype Status =
    | StatusOK                   // 200
    | StatusCreated              // 201
    | StatusNoContent            // 204
    | StatusBadRequest           // 400
    | StatusNotFound             // 404
    | StatusInternalServerError  // 500
}
