/**
 * The documents of the portfolio store and the handlers' uniform reply.
 * Field names follow the Go structs; string fields are `string`, list fields `seq`.
 */
module Models {
  import opened Wrappers
  import opened ObjectIds

  /** A stored document: the store-generated identifier (mgm's DefaultModel) and the model's fields. */
  datatype Doc<M> = Doc(id: ObjectId, model: M)

  datatype User = User(
    email: string,
    password: string,
    adminPass: string,
    skills: seq<string>,
    projects: seq<ObjectId>,
    experiences: seq<ObjectId>,
    certifications: seq<ObjectId>)

  datatype Project = Project(
    projectName: string,
    smallDescription: string,
    description: string,
    skills: seq<string>,
    projectRepository: string,
    projectLiveLink: string,
    projectVideo: string)

  datatype Experience = Experience(
    companyName: string,
    position: string,
    startDate: string,
    endDate: string,
    description: string,
    technologies: seq<string>,
    createdBy: string,
    projects: seq<ObjectId>,
    companyLogo: string,
    certificateUrl: string,
    images: seq<string>)

  datatype Certification = Certification(
    title: string,
    description: string,
    projects: seq<ObjectId>,
    skills: seq<string>,
    certificateUrl: string,
    images: seq<string>,
    issuer: string,
    issueDate: string,
    expiryDate: string)

  /** The fields a project must carry before it is stored. */
  predicate ProjectComplete(p: Project) {
    p.projectName != "" && p.smallDescription != "" && p.description != ""
  }

  /** The fields an experience must carry; the description is optional. */
  predicate ExperienceComplete(e: Experience) {
    e.companyName != "" && e.position != "" && e.startDate != ""
  }

  predicate CertificationComplete(c: Certification) {
    c.title != "" && c.description != "" && c.issuer != ""
  }

  /** A signed bearer token, opaque to the model: the claims it carries and the key it is signed with. */
  datatype Token = Jwt(subject: string, email: string, key: string)

  /** What a handler sends back: the HTTP status, the message and the (possibly nil) data. */
  datatype Response<D> = Response(status: int, message: string, data: Option<D>)

  const StatusOK := 200
  const StatusCreated := 201
  const StatusAccepted := 202
  const StatusBadRequest := 400
  const StatusUnauthorized := 401
  const StatusNotFound := 404
  const StatusInternalServerError := 500
}
