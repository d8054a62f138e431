/** The part of a Flask request the handlers read: the submitted form. */
module FlaskRequest {

  /** request.form: the submitted fields by name. */
  type Form = map<string, string>

  /** request.form.get(key, default) */
  function FormGet(form: Form, key: string, default: string): string {
    if key in form then form[key] else default
  }
}
