/**
 * The slice of the JSF message API the application uses: a message has a
 * severity, a short summary and a detail text.
 */
module Faces {

  datatype Severity = Info | Warn | Error

  datatype FacesMessage = FacesMessage(severity: Severity, summary: string, detail: string)
}
