/** The records the components receive from and send to the remote store,
    and the requests they issue against it. Field names follow the store's
    own (Spanish) names. */
module Records {
  import opened Wrappers

  /** A lease attached to a property; only its status is read. */
  datatype Contract = Contract(estado: string)

  /** A renter's request to rent a property. */
  datatype RentalRequest = RentalRequest(inquilinoId: string, estado: string, fechaSolicitud: string)

  /** A published review of a property. */
  datatype Review = Review(inquilinoId: string, calificacion: int, comentario: string)

  /** A rental property as the store returns it. The image list and the
      nested contract and request lists may be absent from a record. */
  datatype Property = Property(
    id: string,
    ubicacion: string,
    precio: int,
    caracteristicas: seq<string>,
    disponible: bool,
    imagenes: Option<seq<string>>,
    contratos: Option<seq<Contract>>,
    solicitudesRenta: Option<seq<RentalRequest>>)

  /** A staged image file chosen in the upload input. */
  datatype ImageFile = ImageFile(name: string)

  /** The price field of the property form: text typed into the input, or
      the number loaded from an existing record. */
  datatype PriceInput = Typed(text: string) | Loaded(amount: int)

  /** The review form of the detail view. */
  datatype ReviewForm = ReviewForm(inquilinoId: string, calificacion: int, comentario: string)

  /** The body of a property create or update. */
  datatype Payload = Payload(
    ubicacion: string,
    precio: PriceInput,
    caracteristicas: seq<string>,
    disponible: bool,
    imagenes: seq<string>)

  /** One request to the remote store, named by its endpoint. */
  datatype Request =
    | ListProperties                                     // GET /inmuebles
    | GetProperty(id: string)                            // GET /inmuebles/{id}
    | CreateProperty(payload: Payload)                   // POST /inmuebles
    | UpdateProperty(id: string, payload: Payload)       // PUT /inmuebles/{id}
    | PatchImages(id: string, imagenes: seq<string>)     // PUT /inmuebles/{id} with images only
    | DeleteProperty(id: string)                         // DELETE /inmuebles/{id}
    | UploadImages(id: string, files: seq<ImageFile>)    // POST /inmuebles/{id}/imagenes
    | FetchRentalRequests(id: string)                    // GET /inmuebles/{id}/solicitudes_renta
    | CreateReview(id: string, review: ReviewForm)       // POST /inmuebles/{id}/resenas
    | FetchReviews(id: string)                           // GET /inmuebles/{id}/resenas

  /** The state a handler leaves behind and the requests it issued, in order. */
  datatype Effect<S> = Effect(state: S, calls: seq<Request>)
}
